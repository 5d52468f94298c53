/** The administrative endpoints that change identity and flag state: revoking any
    session, locking and unlocking accounts, creating users and roles under their
    unique-name rules, synchronising a role's permission set, and upserting a
    feature flag (which invalidates its cache entry). */
module AdminEndpoints {
  import opened Common
  import opened Data
  import opened AuthEndpoints
  import opened FeatureFlags

  /** RevokeSession (admin): revokes any existing session, stamping the time; 404 for
      an unknown id. No other session changes. */
  method RevokeSession(db: AppDb, id: Guid, now: int) returns (status: int)
    requires db.Valid()
    modifies db`refreshSessions
    ensures db.Valid()
    ensures SessionById(old(db.refreshSessions), id).None? ==> status == 404 && unchanged(db)
    ensures SessionById(old(db.refreshSessions), id).Some? ==>
              var i := SessionById(old(db.refreshSessions), id).value;
              status == 200 && db.refreshSessions == old(db.refreshSessions)[i := Revoke(old(db.refreshSessions)[i], now)]
    ensures RevocationsKept(old(db.refreshSessions), db.refreshSessions)
  {
    var found := SessionById(db.refreshSessions, id);
    if found.None? {
      return 404;
    }
    var i := found.value;
    db.refreshSessions := db.refreshSessions[i := Revoke(db.refreshSessions[i], now)];
    status := 200;
  }

  /** LockUser / UnlockUser: set the account's lock flag; 404 for an unknown id. */
  method SetLocked(db: AppDb, id: Guid, locked: bool) returns (status: int)
    requires db.Valid()
    modifies db`users
    ensures db.Valid()
    ensures id !in old(db.users) ==> status == 404 && unchanged(db)
    ensures id in old(db.users) ==>
              status == 200 && db.users == old(db.users)[id := old(db.users)[id].(isLocked := locked)]
  {
    if id !in db.users {
      return 404;
    }
    db.users := db.users[id := db.users[id].(isLocked := locked)];
    status := 200;
  }

  method LockUser(db: AppDb, id: Guid) returns (status: int)
    requires db.Valid()
    modifies db`users
    ensures db.Valid()
    ensures id !in old(db.users) ==> status == 404 && unchanged(db)
    ensures id in old(db.users) ==>
              status == 200 && db.users == old(db.users)[id := old(db.users)[id].(isLocked := true)]
  {
    status := SetLocked(db, id, true);
  }

  method UnlockUser(db: AppDb, id: Guid) returns (status: int)
    requires db.Valid()
    modifies db`users
    ensures db.Valid()
    ensures id !in old(db.users) ==> status == 404 && unchanged(db)
    ensures id in old(db.users) ==>
              status == 200 && db.users == old(db.users)[id := old(db.users)[id].(isLocked := false)]
  {
    status := SetLocked(db, id, false);
  }

  /** A locked user can no longer refresh: no session of theirs is a refresh target,
      whatever token is presented. */
  lemma LockedUserCannotRefresh(sessions: seq<RefreshSession>, users: map<Guid, AppUser>,
                                uid: Guid, hash: string, now: int)
    requires uid in users
    ensures var locked := users[uid := users[uid].(isLocked := true)];
            var r := RefreshTarget(sessions, locked, hash, now);
            r.Some? ==> sessions[r.value].userId != uid
  {
  }

  /** The set of trimmed, lower-cased names of a list. */
  function NormalizedNames(names: seq<string>): set<string> {
    set n | n in names :: Normalize(n)
  }

  lemma NormalizedNamesSnoc(names: seq<string>, name: string)
    ensures NormalizedNames(names + [name]) == NormalizedNames(names) + {Normalize(name)}
  {
    assert forall n :: n in names + [name] <==> n in names || n == name;
  }

  predicate RoleNameTaken(roles: map<Guid, Role>, name: string): (r: bool)
    ensures forall g :: g in roles && roles[g].name == name ==> r
    ensures roles == map[] ==> !r
  {
    exists r :: r in roles && roles[r].name == name
  }

  /** CreateRole: the name is trimmed and lower-cased; blank gives 400, an existing
      name 409, both without change; otherwise a role without permissions is added. */
  method CreateRole(db: AppDb, name: string) returns (status: int, id: Option<Guid>)
    requires db.Valid()
    modifies db`roles, db`nextId
    ensures db.Valid()
    ensures IsBlank(Normalize(name)) ==> status == 400 && id.None? && unchanged(db)
    ensures !IsBlank(Normalize(name)) && RoleNameTaken(old(db.roles), Normalize(name)) ==>
              status == 409 && id.None? && unchanged(db)
    ensures !IsBlank(Normalize(name)) && !RoleNameTaken(old(db.roles), Normalize(name)) ==>
              status == 201 && id == Some(old(db.nextId))
              && db.roles == old(db.roles)[old(db.nextId) := Role(Normalize(name), [])]
  {
    var n := Normalize(name);
    if IsBlank(n) {
      return 400, None;
    }
    if exists r :: r in db.roles && db.roles[r].name == n {
      return 409, None;
    }
    var rid := db.NewGuid();
    db.roles := db.roles[rid := Role(n, [])];
    status, id := 201, Some(rid);
  }

  /** CreateUser: like Register without a session. The email is normalised; blank gives
      400, taken 409, both without change. The user starts verified and receives every
      role whose name is among the requested names, normalised. */
  method CreateUser(db: AppDb, email: string, displayName: Option<string>, roleNames: Option<seq<string>>, now: int)
    returns (status: int, id: Option<Guid>)
    requires db.Valid()
    modifies db`users, db`userRoles, db`nextId
    ensures db.Valid()
    ensures IsBlank(Normalize(email)) ==> status == 400 && id.None? && unchanged(db)
    ensures !IsBlank(Normalize(email)) && EmailTaken(old(db.users), Normalize(email)) ==>
              status == 409 && id.None? && unchanged(db)
    ensures !IsBlank(Normalize(email)) && !EmailTaken(old(db.users), Normalize(email)) ==>
              var e, u := Normalize(email), old(db.nextId);
              status == 201 && id == Some(u)
              && db.users == old(db.users)[u := AppUser(e, if displayName.Some? then Trim(displayName.value) else e,
                                                        true, false, false, now)]
              && db.userRoles
                 == old(db.userRoles) + RoleGrants(db.roles, u, if roleNames.Some? then NormalizedNames(roleNames.value) else {})
  {
    var e := Normalize(email);
    if IsBlank(e) {
      return 400, None;
    }
    if exists u :: u in db.users && db.users[u].email == e {
      return 409, None;
    }
    var name := if displayName.Some? then Trim(displayName.value) else e;
    var uid := AddUser(db, AppUser(e, name, true, false, false, now));
    if roleNames.Some? && |roleNames.value| > 0 {
      db.userRoles := db.userRoles + RoleGrants(db.roles, uid, NormalizedNames(roleNames.value));
    } else {
      assert RoleGrants(db.roles, uid, {}) == {};
    }
    status, id := 201, Some(uid);
  }

  /** The ids of the permission rows named in `names`. */
  function PermissionIds(permissions: map<string, Guid>, names: set<string>): set<Guid> {
    set n | n in names && n in permissions :: permissions[n]
  }

  /** Adds a permission row under a new id; its name must be free (the unique index). */
  method AddPermission(db: AppDb, name: string)
    requires db.Valid() && name !in db.permissions
    modifies db`permissions, db`nextId
    ensures db.Valid()
    ensures db.permissions == old(db.permissions)[name := old(db.nextId)]
  {
    var pid := db.NewGuid();
    db.permissions := db.permissions[name := pid];
  }

  /** The first half of SyncRolePerms: a permission row for every desired name that
      has none, under a new id; existing rows are kept as they are. */
  method EnsurePermissions(db: AppDb, names: seq<string>)
    requires db.Valid()
    modifies db`permissions, db`nextId
    ensures db.Valid()
    ensures db.permissions.Keys == old(db.permissions).Keys + NormalizedNames(names)
    ensures forall n :: n in old(db.permissions) ==> db.permissions[n] == old(db.permissions)[n]
  {
    for k := 0 to |names|
      invariant db.Valid()
      invariant db.permissions.Keys == old(db.permissions).Keys + NormalizedNames(names[..k])
      invariant forall n :: n in old(db.permissions) ==> db.permissions[n] == old(db.permissions)[n]
    {
      assert names[..k + 1] == names[..k] + [names[k]];
      NormalizedNamesSnoc(names[..k], names[k]);
      var p := Normalize(names[k]);
      if p !in db.permissions {
        AddPermission(db, p);
      }
    }
    assert names[..|names|] == names;
  }

  /** The second half: the role keeps the permission rows it should keep and gains,
      once each, the desired ones it lacks. */
  method MergePermissions(have: seq<Guid>, permIds: set<Guid>) returns (result: seq<Guid>)
    requires NoDup(have)
    ensures Elems(result) == permIds && NoDup(result)
  {
    result := Filter(have, (pid: Guid) => pid in permIds);
    var kept := Elems(result);
    var todo := permIds;
    while todo != {}
      invariant todo <= permIds
      invariant Elems(result) == kept + (permIds - todo)
      invariant kept <= permIds && NoDup(result)
      invariant forall q :: 0 <= q < |result| ==> result[q] in kept || result[q] !in todo
      decreases todo
    {
      var pid :| pid in todo;
      if pid !in kept {
        assert forall q :: 0 <= q < |result| ==> result[q] != pid;
        assert Elems(result + [pid]) == Elems(result) + {pid};
        result := result + [pid];
      }
      todo := todo - {pid};
    }
  }

  /** SyncRolePerms: 404 for an unknown role. Otherwise every desired name (trimmed,
      lower-cased) gets a permission row, and the role ends up holding exactly the
      permissions of the desired names, each once. Other roles do not change. */
  method SyncRolePerms(db: AppDb, roleId: Guid, names: seq<string>) returns (status: int)
    requires db.Valid()
    modifies db`permissions, db`nextId, db`roles
    ensures db.Valid()
    ensures roleId !in old(db.roles) ==> status == 404 && unchanged(db)
    ensures roleId in old(db.roles) ==>
              status == 200
              && db.permissions.Keys == old(db.permissions).Keys + NormalizedNames(names)
              && (forall n :: n in old(db.permissions) ==> db.permissions[n] == old(db.permissions)[n])
              && roleId in db.roles
              && db.roles == old(db.roles)[roleId := old(db.roles)[roleId].(permissionIds := db.roles[roleId].permissionIds)]
              && Elems(db.roles[roleId].permissionIds) == PermissionIds(db.permissions, NormalizedNames(names))
              && NoDup(db.roles[roleId].permissionIds)
  {
    if roleId !in db.roles {
      return 404;
    }
    EnsurePermissions(db, names);
    var permIds := PermissionIds(db.permissions, NormalizedNames(names));
    var role := db.roles[roleId];
    var merged := MergePermissions(role.permissionIds, permIds);
    db.roles := db.roles[roleId := role.(permissionIds := merged)];
    status := 200;
  }

  function FlagRow(flags: seq<FeatureFlag>, key: string): Option<nat> {
    FirstWhere(flags, (f: FeatureFlag) => f.key == key)
  }

  /** The flag table after writing `row`: over the first row with its key, or appended. */
  function Upserted(flags: seq<FeatureFlag>, row: FeatureFlag): (r: seq<FeatureFlag>)
    ensures StoredValue(r, row.key) == row.enabled
    ensures FlagRow(flags, row.key).None? ==> r == flags + [row]
    ensures FlagRow(flags, row.key).Some? ==> |r| == |flags| && r[FlagRow(flags, row.key).value] == row
    ensures forall i :: 0 <= i < |flags| && Some(i) != FlagRow(flags, row.key) ==> r[i] == flags[i]
  {
    match FlagRow(flags, row.key)
    case None =>
      var r := flags + [row];
      assert FlagRow(r, row.key) == Some(|flags|);
      r
    case Some(i) =>
      var r := flags[i := row];
      assert forall j :: 0 <= j < i ==> r[j] == flags[j];
      assert r[i].key == row.key;
      assert FlagRow(r, row.key) == Some(i);
      r
  }

  /** UpsertFlag: the key is trimmed; blank gives 400 without change. Otherwise the
      first row with the key is overwritten (or a row added) with the new state and
      the trimmed description, and the key's cache entry is dropped, so that every
      later lookup of the key answers the new state until the cache is refilled. */
  method UpsertFlag(db: AppDb, flags: FeatureFlagsService, key: string, enabled: bool,
                    description: Option<string>, now: int)
    returns (status: int)
    modifies db`featureFlags, flags`cache
    ensures IsBlank(Trim(key)) ==> status == 400 && unchanged(db) && unchanged(flags)
    ensures !IsBlank(Trim(key)) ==>
              var k := Trim(key);
              status == 200
              && db.featureFlags == Upserted(old(db.featureFlags), FeatureFlag(k, enabled, TrimOpt(description), now))
              && flags.cache == old(flags.cache) - {CacheKey(k)}
              && forall t :: Lookup(flags.cache, db.featureFlags, k, t) == enabled
  {
    var k := Trim(key);
    if IsBlank(k) {
      return 400;
    }
    db.featureFlags := Upserted(db.featureFlags, FeatureFlag(k, enabled, TrimOpt(description), now));
    flags.Invalidate(Some(k));
    status := 200;
  }
}
