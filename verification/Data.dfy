/** The persisted records the core reads and writes, and the database context that
    holds them as tables. Times are whole seconds, except series timestamps, which
    are ticks; money and measurement values are only ever copied, so `real` stands
    for `decimal` and `double`. */
module Data {
  import opened Common
  import ForecastEngine

  // ---------------------------------------------------------------- reliability

  /** An event waiting to be delivered to the outbound webhook. A message with
      `processedAt` set has been delivered; `nextAttemptAt == None` means "ready now". */
  datatype OutboxMessage = OutboxMessage(
    id: Guid,
    kind: string,
    payloadJson: string,
    attempts: nat,
    createdAt: int,
    nextAttemptAt: Option<int>,
    processedAt: Option<int>)

  /** A message that used up its delivery attempts. */
  datatype DeadLetterMessage = DeadLetterMessage(
    kind: string,
    payloadJson: string,
    error: string,
    deadAt: int)

  /** A stored response, replayed for a repeated (key, route) pair. */
  datatype IdempotencyRecord = IdempotencyRecord(
    key: string,
    route: string,
    statusCode: int,
    responseBody: string,
    createdAt: int)

  // ---------------------------------------------------------------------- items

  const StatusDraft: string := "draft"
  const StatusReview: string := "review"
  const StatusPublished: string := "published"
  const StatusUnpublished: string := "unpublished"
  const StatusCancelled: string := "cancelled"
  const StatusClosed: string := "closed"

  /** A catalogue item; `tagIds` is its list of ItemTag rows, `version` drives the ETag. */
  datatype Item = Item(
    name: string,
    description: Option<string>,
    price: real,
    status: string,
    isActive: bool,
    isVerified: bool,
    categoryId: Option<Guid>,
    tagIds: seq<Guid>,
    isDeleted: bool,
    isArchived: bool,
    version: nat,
    createdAt: int,
    updatedAt: int)

  /** A freshly constructed item: draft, active, unverified, no tags, version 1. */
  function NewItem(name: string, description: Option<string>, price: real,
                   categoryId: Option<Guid>, now: int): (it: Item)
    ensures it.version == 1 && it.status == StatusDraft && it.isActive && !it.isVerified
    ensures it.tagIds == [] && !it.isDeleted && !it.isArchived
  {
    Item(name, description, price, StatusDraft, true, false, categoryId, [],
         false, false, 1, now, now)
  }

  // ------------------------------------------------------------------- identity

  datatype AppUser = AppUser(
    email: string,
    displayName: string,
    emailVerified: bool,
    twoFactorEnabled: bool,
    isLocked: bool,
    createdAt: int)

  /** A role and the permission ids of its RolePermission rows. */
  datatype Role = Role(name: string, permissionIds: seq<Guid>)

  datatype UserRole = UserRole(userId: Guid, roleId: Guid)

  /** A refresh session; only the hash of the refresh token is stored. */
  datatype RefreshSession = RefreshSession(
    id: Guid,
    userId: Guid,
    refreshTokenHash: string,
    createdAt: int,
    expiresAt: int,
    userAgent: Option<string>,
    ip: Option<string>,
    revoked: bool,
    revokedAt: Option<int>)

  // ------------------------------------------------------------ flags and series

  datatype FeatureFlag = FeatureFlag(
    key: string,
    enabled: bool,
    description: Option<string>,
    updatedAt: int)

  datatype SeriesPoint = SeriesPoint(seriesId: Guid, timestamp: int, value: real)

  /** A recorded forecast: the method name as stored, the clamped horizon and holdout,
      and the forecast points (the error measures are floating point and not kept). */
  datatype ForecastRun = ForecastRun(
    id: Guid,
    seriesId: Guid,
    methodName: string,
    horizon: int,
    holdout: int,
    forecast: seq<ForecastEngine.ForecastPoint>)

  /** The database context: one field per table. `nextId` plays Guid.NewGuid (every
      identifier handed out is new), and `hashToken` is the one-way hash applied to
      refresh tokens. */
  class AppDb {
    var outboxMessages: seq<OutboxMessage>
    var deadLetterMessages: seq<DeadLetterMessage>
    var idempotencyRecords: seq<IdempotencyRecord>
    var items: map<Guid, Item>
    var tags: set<Guid>
    var users: map<Guid, AppUser>
    var roles: map<Guid, Role>
    /** Permission rows, keyed by their unique name. */
    var permissions: map<string, Guid>
    var userRoles: set<UserRole>
    var refreshSessions: seq<RefreshSession>
    var featureFlags: seq<FeatureFlag>
    var series: set<Guid>
    var seriesPoints: seq<SeriesPoint>
    var forecastRuns: seq<ForecastRun>
    var nextId: Guid
    const hashToken: string -> string

    /** The unique indexes of the identity tables (the RolePermission key included),
        and every identifier handed out so far lying below `nextId`. */
    ghost predicate Valid()
      reads this
    {
      (forall u :: u in users ==> u < nextId)
      && (forall r :: r in roles ==> r < nextId)
      && (forall n :: n in permissions ==> permissions[n] < nextId)
      && (forall i :: 0 <= i < |refreshSessions| ==> refreshSessions[i].id < nextId)
      && (forall i, j :: 0 <= i < j < |refreshSessions| ==>
            refreshSessions[i].id != refreshSessions[j].id)
      && (forall a, b :: a in permissions && b in permissions && a != b ==>
            permissions[a] != permissions[b])
      && (forall u, v :: u in users && v in users && u != v ==> users[u].email != users[v].email)
      && (forall r, s :: r in roles && s in roles && r != s ==> roles[r].name != roles[s].name)
      && (forall r :: r in roles ==> NoDup(roles[r].permissionIds))
    }

    constructor (hashToken: string -> string)
      ensures Valid() && this.hashToken == hashToken
      ensures outboxMessages == [] && deadLetterMessages == [] && idempotencyRecords == []
      ensures items == map[] && tags == {} && users == map[] && roles == map[]
      ensures permissions == map[] && userRoles == {} && refreshSessions == []
      ensures featureFlags == [] && series == {} && seriesPoints == [] && forecastRuns == []
    {
      outboxMessages, deadLetterMessages, idempotencyRecords := [], [], [];
      items, tags, users, roles := map[], {}, map[], map[];
      permissions, userRoles, refreshSessions := map[], {}, [];
      featureFlags, series, seriesPoints, forecastRuns := [], {}, [], [];
      nextId := 0;
      this.hashToken := hashToken;
    }

    /** Guid.NewGuid: an identifier never handed out before. */
    method NewGuid() returns (id: Guid)
      modifies this`nextId
      ensures id == old(nextId) && nextId == id + 1
    {
      id := nextId;
      nextId := nextId + 1;
    }
  }
}
