/** The refresh-session lifecycle of the auth endpoints. Register and Login open a
    session that lives 30 days; Refresh rotates it (the presented session is revoked
    and a new one issued); Logout and the user's own RevokeSession revoke one. A
    session is Active until it is revoked or expires, and neither state is ever left.
    The refresh token itself is a fresh value supplied by the caller; the table stores
    only its hash, `db.hashToken`. */
module AuthEndpoints {
  import opened Common
  import opened Data

  const Day: int := 86400
  /** A refresh session expires 30 days after it is issued. */
  const SessionLifetime: int := 30 * Day

  /** The answer of an auth endpoint: a new session with its refresh token, a 2FA
      challenge, or an error status. */
  datatype AuthOutcome = Issued(userId: Guid, refreshToken: string) | TwoFactorRequired | Rejected(status: int)

  /** The caller's claims: the uid claim, absent, unparseable or a user id; role and
      permission claims. */
  datatype UidClaim = NoUid | Unparseable | Uid(id: Guid)
  datatype Principal = Principal(uid: UidClaim, roles: set<string>, perms: set<string>)

  /** The admin role or the admin:manage permission claim. */
  predicate IsAdmin(p: Principal): (r: bool)
    ensures "admin" in p.roles ==> r
    ensures "admin:manage" in p.perms ==> r
    ensures p.roles == {} && p.perms == {} ==> !r
  {
    "admin" in p.roles || "admin:manage" in p.perms
  }

  /** A session as Register, Login and Refresh create it. */
  function NewSession(id: Guid, userId: Guid, hash: string, userAgent: Option<string>,
                      ip: Option<string>, now: int): (s: RefreshSession)
    ensures !s.revoked && s.revokedAt.None? && s.expiresAt == now + SessionLifetime
  {
    RefreshSession(id, userId, hash, now, now + SessionLifetime, userAgent, ip, false, None)
  }

  /** Revocation marks the session and changes nothing else about it. */
  function Revoke(s: RefreshSession, now: int): (r: RefreshSession)
    ensures r.revoked && r.revokedAt == Some(now)
    ensures r.(revoked := s.revoked, revokedAt := s.revokedAt) == s
  {
    s.(revoked := true, revokedAt := Some(now))
  }

  /** The sessions table only grows, rows keep their identity and owner, and a
      revoked session stays revoked. */
  predicate RevocationsKept(before: seq<RefreshSession>, after: seq<RefreshSession>) {
    |before| <= |after|
    && forall i :: 0 <= i < |before| ==>
         after[i].id == before[i].id && after[i].userId == before[i].userId
         && (before[i].revoked ==> after[i].revoked)
  }

  /** Any run of the endpoints keeps revocations, since each step does. */
  lemma RevocationsKeptTransitive(a: seq<RefreshSession>, b: seq<RefreshSession>, c: seq<RefreshSession>)
    requires RevocationsKept(a, b) && RevocationsKept(b, c)
    ensures RevocationsKept(a, c)
  {
  }

  /** The first session stored under the hash. */
  function SessionByHash(sessions: seq<RefreshSession>, hash: string): (r: Option<nat>)
    ensures r.None? <==> forall j :: 0 <= j < |sessions| ==> sessions[j].refreshTokenHash != hash
    ensures r.Some? ==> r.value < |sessions| && sessions[r.value].refreshTokenHash == hash
    ensures r.Some? ==> forall j :: 0 <= j < r.value ==> sessions[j].refreshTokenHash != hash
  {
    FirstWhere(sessions, (s: RefreshSession) => s.refreshTokenHash == hash)
  }

  /** The first session with the id. */
  function SessionById(sessions: seq<RefreshSession>, id: Guid): (r: Option<nat>)
    ensures r.None? <==> forall j :: 0 <= j < |sessions| ==> sessions[j].id != id
    ensures r.Some? ==> r.value < |sessions| && sessions[r.value].id == id
    ensures r.Some? ==> forall j :: 0 <= j < r.value ==> sessions[j].id != id
  {
    FirstWhere(sessions, (s: RefreshSession) => s.id == id)
  }

  /** The session Refresh rotates for the presented hash, or None when it answers 401:
      the first session with the hash must exist, be unrevoked, not be past its
      expiry, and belong to a user that exists and is not locked. */
  function RefreshTarget(sessions: seq<RefreshSession>, users: map<Guid, AppUser>, hash: string, now: int)
    : (r: Option<nat>)
    ensures r.Some? ==> r == SessionByHash(sessions, hash)
    ensures r.Some? ==> r.value < |sessions| && sessions[r.value].refreshTokenHash == hash
                        && !sessions[r.value].revoked && now <= sessions[r.value].expiresAt
                        && sessions[r.value].userId in users && !users[sessions[r.value].userId].isLocked
  {
    match SessionByHash(sessions, hash)
    case None => None
    case Some(i) =>
      var s := sessions[i];
      if s.revoked then None
      else if now > s.expiresAt then None
      else if s.userId !in users || users[s.userId].isLocked then None
      else Some(i)
  }

  /** The table after rotating session i: it is revoked at `now`, and a new session for
      the same user, user agent and address is appended. */
  function Rotated(sessions: seq<RefreshSession>, i: nat, newId: Guid, newHash: string, now: int)
    : (r: seq<RefreshSession>)
    requires i < |sessions|
    ensures |r| == |sessions| + 1 && RevocationsKept(sessions, r)
    ensures r[i].revoked && r[i].revokedAt == Some(now)
    ensures r[i] == sessions[i].(revoked := true, revokedAt := Some(now))
    ensures forall j :: 0 <= j < |sessions| && j != i ==> r[j] == sessions[j]
    ensures var n := r[|sessions|];
            n.id == newId && n.createdAt == now && n.refreshTokenHash == newHash
            && n.userId == sessions[i].userId && n.userAgent == sessions[i].userAgent && n.ip == sessions[i].ip
            && !n.revoked && n.revokedAt.None? && n.expiresAt == now + SessionLifetime
  {
    var s := sessions[i];
    sessions[i := Revoke(s, now)] + [NewSession(newId, s.userId, newHash, s.userAgent, s.ip, now)]
  }

  /** Expiry is strict: a session can still be refreshed at its expiry instant, and
      not one tick later. */
  lemma ExpiryIsStrict(sessions: seq<RefreshSession>, users: map<Guid, AppUser>, hash: string)
    requires SessionByHash(sessions, hash).Some?
    requires var s := sessions[SessionByHash(sessions, hash).value];
             !s.revoked && s.userId in users && !users[s.userId].isLocked
    ensures var s := sessions[SessionByHash(sessions, hash).value];
            RefreshTarget(sessions, users, hash, s.expiresAt).Some?
            && RefreshTarget(sessions, users, hash, s.expiresAt + 1).None?
  {
  }

  /** After a rotation the presented token is refused for good: its session is now the
      first one with that hash, and it is revoked. */
  lemma RotationRefusesOldToken(sessions: seq<RefreshSession>, users: map<Guid, AppUser>, hash: string,
                                now: int, newId: Guid, newHash: string, later: int)
    requires RefreshTarget(sessions, users, hash, now).Some?
    ensures var i := RefreshTarget(sessions, users, hash, now).value;
            RefreshTarget(Rotated(sessions, i, newId, newHash, now), users, hash, later).None?
  {
    var i := RefreshTarget(sessions, users, hash, now).value;
    var r := Rotated(sessions, i, newId, newHash, now);
    assert r[i].refreshTokenHash == hash;
    assert SessionByHash(r, hash) == Some(i);
  }

  /** The newly issued token works: as long as it is unexpired and the user is still
      there and unlocked, refreshing with it rotates the new session. */
  lemma RotationAcceptsNewToken(sessions: seq<RefreshSession>, users: map<Guid, AppUser>, hash: string,
                                now: int, newId: Guid, newHash: string, later: int)
    requires RefreshTarget(sessions, users, hash, now).Some?
    requires forall k :: 0 <= k < |sessions| ==> sessions[k].refreshTokenHash != newHash
    requires later <= now + SessionLifetime
    ensures var i := RefreshTarget(sessions, users, hash, now).value;
            RefreshTarget(Rotated(sessions, i, newId, newHash, now), users, newHash, later)
            == Some(|sessions|)
  {
    var i := RefreshTarget(sessions, users, hash, now).value;
    var r := Rotated(sessions, i, newId, newHash, now);
    assert forall k :: 0 <= k < |sessions| ==> r[k].refreshTokenHash != newHash by {
      forall k | 0 <= k < |sessions|
        ensures r[k].refreshTokenHash != newHash
      {
        if k != i { assert r[k] == sessions[k]; }
      }
    }
    assert SessionByHash(r, newHash) == Some(|sessions|);
  }

  /** Appends a fresh session for `userId` (the tail of Register and Login). */
  method AddSession(db: AppDb, userId: Guid, refreshToken: string, userAgent: Option<string>,
                    ip: Option<string>, now: int)
    requires db.Valid()
    modifies db`refreshSessions, db`nextId
    ensures db.Valid()
    ensures db.nextId == old(db.nextId) + 1
    ensures db.refreshSessions
            == old(db.refreshSessions) + [NewSession(old(db.nextId), userId, db.hashToken(refreshToken), userAgent, ip, now)]
  {
    var sid := db.NewGuid();
    db.refreshSessions := db.refreshSessions + [NewSession(sid, userId, db.hashToken(refreshToken), userAgent, ip, now)];
  }

  predicate EmailTaken(users: map<Guid, AppUser>, email: string): (r: bool)
    ensures forall u :: u in users && users[u].email == email ==> r
    ensures users == map[] ==> !r
  {
    exists u :: u in users && users[u].email == email
  }

  /** The UserRole rows that give user `u` every role whose name is in `names`. */
  function RoleGrants(roles: map<Guid, Role>, u: Guid, names: set<string>): (r: set<UserRole>)
    ensures forall g :: g in r ==> g.userId == u && g.roleId in roles && roles[g.roleId].name in names
    ensures forall rid :: rid in roles && roles[rid].name in names ==> UserRole(u, rid) in r
  {
    set rid | rid in roles && roles[rid].name in names :: UserRole(u, rid)
  }

  /** Adds a user row under a new id; its email must be free (the unique index). */
  method AddUser(db: AppDb, user: AppUser) returns (uid: Guid)
    requires db.Valid() && !EmailTaken(db.users, user.email)
    modifies db`users, db`nextId
    ensures db.Valid()
    ensures uid == old(db.nextId) && db.nextId == uid + 1
    ensures db.users == old(db.users)[uid := user]
  {
    uid := db.NewGuid();
    db.users := db.users[uid := user];
  }

  /** Register: the email is trimmed and lower-cased; a blank one is 400 and a taken
      one 409, both without change. Otherwise a new unverified user is added, granted
      the "user" role when it exists, and given a fresh session. */
  method Register(db: AppDb, email: string, displayName: Option<string>, refreshToken: string,
                  userAgent: string, ip: Option<string>, now: int)
    returns (out: AuthOutcome)
    requires db.Valid()
    modifies db`users, db`userRoles, db`refreshSessions, db`nextId
    ensures db.Valid()
    ensures IsBlank(Normalize(email)) ==> out == Rejected(400) && unchanged(db)
    ensures !IsBlank(Normalize(email)) && EmailTaken(old(db.users), Normalize(email)) ==>
              out == Rejected(409) && unchanged(db)
    ensures !IsBlank(Normalize(email)) && !EmailTaken(old(db.users), Normalize(email)) ==>
              var e, u := Normalize(email), old(db.nextId);
              out == Issued(u, refreshToken)
              && db.users == old(db.users)[u := AppUser(e, if displayName.Some? then Trim(displayName.value) else e,
                                                        false, false, false, now)]
              && db.userRoles == old(db.userRoles) + RoleGrants(db.roles, u, {"user"})
              && db.refreshSessions
                 == old(db.refreshSessions) + [NewSession(u + 1, u, db.hashToken(refreshToken), Some(userAgent), ip, now)]
    ensures RevocationsKept(old(db.refreshSessions), db.refreshSessions)
  {
    var e := Normalize(email);
    if IsBlank(e) {
      return Rejected(400);
    }
    if exists u :: u in db.users && db.users[u].email == e {
      return Rejected(409);
    }
    var name := if displayName.Some? then Trim(displayName.value) else e;
    var uid := AddUser(db, AppUser(e, name, false, false, false, now));
    db.userRoles := db.userRoles + RoleGrants(db.roles, uid, {"user"});
    AddSession(db, uid, refreshToken, Some(userAgent), ip, now);
    out := Issued(uid, refreshToken);
  }

  /** Login: 401 for an unknown email; 403 for a locked account, before the password
      is looked at; 401 for a wrong password; a 2FA challenge when two-factor is on and
      no code came with the request. None of these changes anything. Otherwise a fresh
      session is opened. `passwordOk` is the password hasher's verdict. */
  method Login(db: AppDb, email: string, passwordOk: bool, twoFactorCode: Option<string>,
               refreshToken: string, userAgent: string, ip: Option<string>, now: int)
    returns (out: AuthOutcome)
    requires db.Valid()
    modifies db`refreshSessions, db`nextId
    ensures db.Valid()
    ensures !EmailTaken(old(db.users), Normalize(email)) ==> out == Rejected(401) && unchanged(db)
    ensures forall u :: u in old(db.users) && old(db.users)[u].email == Normalize(email) ==>
              var user := old(db.users)[u];
              (user.isLocked ==> out == Rejected(403) && unchanged(db))
              && (!user.isLocked && !passwordOk ==> out == Rejected(401) && unchanged(db))
              && (!user.isLocked && passwordOk && user.twoFactorEnabled && IsNullOrWhiteSpace(twoFactorCode) ==>
                    out == TwoFactorRequired && unchanged(db))
              && (!user.isLocked && passwordOk && !(user.twoFactorEnabled && IsNullOrWhiteSpace(twoFactorCode)) ==>
                    out == Issued(u, refreshToken)
                    && db.refreshSessions
                       == old(db.refreshSessions)
                          + [NewSession(old(db.nextId), u, db.hashToken(refreshToken), Some(userAgent), ip, now)])
    ensures RevocationsKept(old(db.refreshSessions), db.refreshSessions)
  {
    var e := Normalize(email);
    if !exists u :: u in db.users && db.users[u].email == e {
      return Rejected(401);
    }
    var uid :| uid in db.users && db.users[uid].email == e;
    var user := db.users[uid];
    if user.isLocked {
      return Rejected(403);
    }
    if !passwordOk {
      return Rejected(401);
    }
    if user.twoFactorEnabled && IsNullOrWhiteSpace(twoFactorCode) {
      return TwoFactorRequired;
    }
    AddSession(db, uid, refreshToken, Some(userAgent), ip, now);
    out := Issued(uid, refreshToken);
  }

  /** Refresh: answers 401 and changes nothing unless RefreshTarget finds a live
      session; then that session is rotated and the new token handed out. */
  method Refresh(db: AppDb, refreshToken: string, newToken: string, now: int) returns (out: AuthOutcome)
    requires db.Valid()
    modifies db`refreshSessions, db`nextId
    ensures db.Valid()
    ensures RefreshTarget(old(db.refreshSessions), db.users, db.hashToken(refreshToken), now).None? ==>
              out == Rejected(401) && unchanged(db)
    ensures RefreshTarget(old(db.refreshSessions), db.users, db.hashToken(refreshToken), now).Some? ==>
              var i := RefreshTarget(old(db.refreshSessions), db.users, db.hashToken(refreshToken), now).value;
              out == Issued(old(db.refreshSessions)[i].userId, newToken)
              && db.refreshSessions == Rotated(old(db.refreshSessions), i, old(db.nextId), db.hashToken(newToken), now)
              && db.nextId == old(db.nextId) + 1
    ensures RevocationsKept(old(db.refreshSessions), db.refreshSessions)
  {
    var target := RefreshTarget(db.refreshSessions, db.users, db.hashToken(refreshToken), now);
    if target.None? {
      return Rejected(401);
    }
    var i := target.value;
    var session := db.refreshSessions[i];
    var sid := db.NewGuid();
    db.refreshSessions := Rotated(db.refreshSessions, i, sid, db.hashToken(newToken), now);
    out := Issued(session.userId, newToken);
    assert forall j :: 0 <= j < |db.refreshSessions| ==> db.refreshSessions[j].id < db.nextId by {
      forall j | 0 <= j < |db.refreshSessions|
        ensures db.refreshSessions[j].id < db.nextId
      {
        if j < |old(db.refreshSessions)| {
          assert db.refreshSessions[j].id == old(db.refreshSessions)[j].id;
        }
      }
    }
  }

  /** Logout: an unknown token is fine and changes nothing. A caller with a parseable
      uid that does not own the session needs the admin role or the admin:manage
      permission, else 403 and no change. Anyone else (the owner, an admin, a caller
      without a usable uid) revokes the session. */
  method Logout(db: AppDb, caller: Principal, refreshToken: string, now: int) returns (status: int)
    requires db.Valid()
    modifies db`refreshSessions
    ensures db.Valid()
    ensures SessionByHash(old(db.refreshSessions), db.hashToken(refreshToken)).None? ==>
              status == 200 && unchanged(db)
    ensures SessionByHash(old(db.refreshSessions), db.hashToken(refreshToken)).Some? ==>
              var i := SessionByHash(old(db.refreshSessions), db.hashToken(refreshToken)).value;
              var s := old(db.refreshSessions)[i];
              (caller.uid.Uid? && caller.uid.id != s.userId && !IsAdmin(caller) ==>
                 status == 403 && unchanged(db))
              && (!(caller.uid.Uid? && caller.uid.id != s.userId && !IsAdmin(caller)) ==>
                    status == 200 && db.refreshSessions == old(db.refreshSessions)[i := Revoke(s, now)])
    ensures RevocationsKept(old(db.refreshSessions), db.refreshSessions)
  {
    var found := SessionByHash(db.refreshSessions, db.hashToken(refreshToken));
    if found.None? {
      return 200;
    }
    var i := found.value;
    var s := db.refreshSessions[i];
    if caller.uid.Uid? && s.userId != caller.uid.id {
      if !IsAdmin(caller) {
        return 403;
      }
    }
    db.refreshSessions := db.refreshSessions[i := Revoke(s, now)];
    status := 200;
  }

  /** RevokeSession (the caller's own): 401 without a parseable uid, 404 for an unknown
      session id, 403 for a session of anyone else (admins included), otherwise the
      session is revoked. Only that row changes. */
  method RevokeSession(db: AppDb, caller: Principal, id: Guid, now: int) returns (status: int)
    requires db.Valid()
    modifies db`refreshSessions
    ensures db.Valid()
    ensures !caller.uid.Uid? ==> status == 401 && unchanged(db)
    ensures caller.uid.Uid? && SessionById(old(db.refreshSessions), id).None? ==> status == 404 && unchanged(db)
    ensures caller.uid.Uid? && SessionById(old(db.refreshSessions), id).Some? ==>
              var i := SessionById(old(db.refreshSessions), id).value;
              var s := old(db.refreshSessions)[i];
              (s.userId != caller.uid.id ==> status == 403 && unchanged(db))
              && (s.userId == caller.uid.id ==>
                    status == 200 && db.refreshSessions == old(db.refreshSessions)[i := Revoke(s, now)])
    ensures RevocationsKept(old(db.refreshSessions), db.refreshSessions)
  {
    if !caller.uid.Uid? {
      return 401;
    }
    var found := SessionById(db.refreshSessions, id);
    if found.None? {
      return 404;
    }
    var i := found.value;
    var s := db.refreshSessions[i];
    if s.userId != caller.uid.id {
      return 403;
    }
    db.refreshSessions := db.refreshSessions[i := Revoke(s, now)];
    status := 200;
  }
}
