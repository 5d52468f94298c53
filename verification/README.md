# Consistency core of the time-series forecasting API

This project models the parts of the time-series forecasting service that keep its
data consistent across retries, races and repeated requests. It also proves
properties of that model. The parts are:

- **Transactional outbox.** Handlers write an outbox message beside their business
  change. A background worker claims the oldest ready message on each tick and
  posts it to the outbound webhook. On success the message is marked processed. On
  failure it is retried with exponential backoff (2, 4, 8, 16 seconds). After the
  fifth failure it is moved to the dead-letter table.
- **Idempotency guard.** A create handler first looks for a stored response under
  the request's `Idempotency-Key` on its route, and replays it if there is one.
  Otherwise the handler runs and stores its 201 response. (key, route) is a unique
  index.
- **Items.**
  - Weak ETags `W/"<version>"` and the `If-Match` precondition.
  - Full (PUT) and partial (PATCH) updates. Each accepted update raises the version
    by exactly one; a rejected one changes nothing.
  - The closed table of workflow actions.
  - Attaching, detaching and synchronising tags.
  - The paging window of the list query.
- **Refresh sessions.** Register and Login open a 30-day session. Refresh rotates it:
  the old session is revoked and a new one issued. Logout and RevokeSession revoke a
  session, with the owner and admin checks. A revoked session never becomes usable
  again.
- **Administration.**
  - Revoking any session, and locking and unlocking accounts.
  - Creating users and roles under their unique-name rules.
  - Synchronising a role's permission set.
  - Upserting a feature flag, which drops the flag's cache entry.
- **Feature flags.** A read-through cache in front of the flag table. A looked-up
  value is cached for 30 seconds under `ff:<key>`, and invalidation drops one entry.
- **Forecasting.** The integer side of the engine:
  - the inferred step, which is the upper median of the gaps between timestamps;
  - the seasonal-naive forecast and the time grid of exponential smoothing.

  The series endpoints import points (replace or append) and run a forecast. That
  covers the feature flag, the horizon and holdout clamping, the train/holdout
  split, the method dispatch and the holdout pairs handed to evaluation.

The database context is the class `Data.AppDb`. Each table is a field: a `seq`
where the order of rows matters, otherwise a `map` or `set`. Each handler is a
method that reassigns the tables it writes and states their whole new state.

Some things the original reads from its environment are parameters here:

- the clock, `now`, in seconds, or in 100 ns ticks for series timestamps;
- the webhook's answer;
- the password hasher's verdict;
- new refresh tokens;
- the smoothed level.

`Guid.NewGuid` is a counter (`AppDb.nextId`) that never repeats, and the SHA-256 of
refresh tokens is an abstract function (`AppDb.hashToken`).

Values that are only ever copied (prices, measurements) are `real`. Timestamps are
integers.

The forecast handler records the method as `"seasonalnaive"` for every request that
does not ask for `"ets"` or `"exp"`. The constant `ForecastMethod.SeasonalNaive`
(`"seasonal_naive"`) is not used there. The model records what the handler writes.

## Model

| member | source | states |
|---|---|---|
| OutboxWorker.Ready | src/TimeSeriesForecast.Api/Workers/OutboxWorker.cs:49 | a delivered message is never ready; a never-attempted undelivered one is ready at once; one whose next attempt is still in the future is not ready, and an undelivered one becomes ready again once its next attempt has come (NextAttemptAt <= now) |
| OutboxWorker.ErrorText | src/TimeSeriesForecast.Api/Workers/OutboxWorker.cs:73 | the dead letter's error is the exception type, ": ", then the message |
| OutboxWorker.Selected | src/TimeSeriesForecast.Api/Workers/OutboxWorker.cs:40-53 | a tick claims a ready message, and claims none exactly when the outbound URL is blank or no message is ready |
| OutboxWorker.Deliver | src/TimeSeriesForecast.Api/Workers/OutboxWorker.cs:55-85 | rows are conserved between the outbox and the dead letters; a message leaves the outbox exactly on the failure that brings it to 5 attempts, and then the outbox loses exactly that row and one dead letter with its type and payload, dead at now, is appended; success sets ProcessedAt := now on that row only; otherwise every other row and the dead letters are unchanged |
| OutboxWorker.OldestReady | src/TimeSeriesForecast.Api/Workers/OutboxWorker.cs:48-51 | None exactly when no message is unprocessed and due; otherwise a ready message whose CreatedAt is no later than that of any ready message (ties go to the first stored) |
| OutboxWorker.FindOldestReady | src/TimeSeriesForecast.Api/Workers/OutboxWorker.cs:48-53 | the scan of the table selects exactly the message OldestReady specifies |
| OutboxWorker.Tick | src/TimeSeriesForecast.Api/Workers/OutboxWorker.cs:38-86 | with no URL or nothing ready the tables are unchanged; dead letters are only appended, at most one per tick; every row that leaves the outbox becomes one dead letter |
| OutboxWorker.Run | src/TimeSeriesForecast.Api/Workers/OutboxWorker.cs:21-36 | over any run of ticks the dead-letter table only grows by appends, at most one per tick, and outbox plus dead-letter rows are conserved |
| OutboxWorker.ProcessOnce | src/TimeSeriesForecast.Api/Workers/OutboxWorker.cs:38-86 | the new tables are Tick of the old ones. A blank URL or nothing ready changes nothing. Success sets ProcessedAt := now on the claimed row only. A failure raises Attempts by one, then either removes the row and appends one dead letter (same type and payload, "Type: message", DeadAt = now) at 5 attempts, or sets NextAttemptAt := now + 2^attempts |
| OutboxWorker.Execute | src/TimeSeriesForecast.Api/Workers/OutboxWorker.cs:21-36 | the polling loop leaves the tables at Run of its ticks |
| OutboxWorker.Publish | src/TimeSeriesForecast.Api/Endpoints/ItemsEndpoints.cs:361 | appends a never-attempted, immediately ready message under a fresh id and keeps message ids unique |
| OutboxWorker.TickKeepsUnclaimed | src/TimeSeriesForecast.Api/Workers/OutboxWorker.cs:48-53 | a tick touches at most one message: every message it does not claim stays exactly as it was, and ids stay unique |
| OutboxWorker.DeliveredIsFinal | src/TimeSeriesForecast.Api/Workers/OutboxWorker.cs:49 | a delivered message is never claimed, changed or removed by any later run of ticks |
| OutboxWorker.RepeatedFailureDeadLetters | src/TimeSeriesForecast.Api/Workers/OutboxWorker.cs:66-82 | a message with a < 5 attempts that fails on its next 5 - a claims ends with no outbox row and exactly one appended dead letter, carrying its type, its payload, the last error and the last tick's time |
| OutboxWorker.LastFailureDeadLetters | src/TimeSeriesForecast.Api/Workers/OutboxWorker.cs:67-77 | the failure that reaches 5 attempts removes the message and appends exactly its dead letter |
| OutboxWorker.EarlyFailureRetries | src/TimeSeriesForecast.Api/Workers/OutboxWorker.cs:78-82 | an earlier failure keeps the message, with one more attempt and NextAttemptAt = now + 2^attempts |
| OutboxWorker.BackoffSchedule | src/TimeSeriesForecast.Api/Workers/OutboxWorker.cs:80 | the backoff after attempts 1 to 4 is 2, 4, 8 and 16 seconds |
| OutboxWorker.OvertakenWhileBackingOff | src/TimeSeriesForecast.Api/Workers/OutboxWorker.cs:49-50 | an older message still waiting out its backoff is overtaken by a newer ready one |
| Idempotency.FindRecord | src/TimeSeriesForecast.Api/Middleware/Idempotency.cs:14 | the first record for exactly (key, route); None exactly when there is none |
| Idempotency.TryReplay | src/TimeSeriesForecast.Api/Middleware/Idempotency.cs:9-19 | a missing or blank key never replays; otherwise it replays exactly when a record for (key, route) exists, and the replay is that record's status and body |
| Idempotency.Store | src/TimeSeriesForecast.Api/Middleware/Idempotency.cs:21-31 | adds exactly one record with the given key, route, status and body when (key, route) is free; otherwise the unique index refuses it and nothing changes |
| Idempotency.StoreThenReplay | src/TimeSeriesForecast.Api/Middleware/Idempotency.cs:9-31 | round trip: after storing (s, b) for a fresh (key, route), the replay for that key and route is (s, b) |
| Idempotency.ReplayIsStable | src/TimeSeriesForecast.Api/Middleware/Idempotency.cs:14-18 | a replay stays the same however many records are stored afterwards |
| Idempotency.OtherRouteDoesNotMatch | src/TimeSeriesForecast.Api/Middleware/Idempotency.cs:14 | a record stored under one route never replays on another route with the same key |
| Idempotency.Guarded | src/TimeSeriesForecast.Api/Endpoints/ItemsEndpoints.cs:340-372 | replays (and changes nothing) exactly when TryReplay finds a record; otherwise answers the handler's outcome and records a 201 only when something was created and a key was sent |
| Idempotency.RetriedRequest | src/TimeSeriesForecast.Api/Endpoints/ItemsEndpoints.cs:340-372 | a retry with the same key and route gets the first response back, whatever the handler would do the second time, and only one record is stored |
| ItemsEndpoints.MakeEtag | src/TimeSeriesForecast.Api/Endpoints/ItemsEndpoints.cs:330 | the weak validator: `W/"`, the version's decimal digits, and a closing quote |
| ItemsEndpoints.CheckIfMatch | src/TimeSeriesForecast.Api/Endpoints/ItemsEndpoints.cs:332-338 | an absent or blank If-Match passes; a non-blank one passes if and only if, trimmed, it equals the current ETag ordinally |
| ItemsEndpoints.EtagInjective | src/TimeSeriesForecast.Api/Endpoints/ItemsEndpoints.cs:330 | distinct versions have distinct ETags |
| ItemsEndpoints.EtagNotBlank | src/TimeSeriesForecast.Api/Endpoints/ItemsEndpoints.cs:330 | an ETag is never blank, so presenting one always leads to a comparison |
| ItemsEndpoints.EtagIsTrimmed | src/TimeSeriesForecast.Api/Endpoints/ItemsEndpoints.cs:330 | trimming leaves an ETag unchanged |
| ItemsEndpoints.CurrentEtagAccepted | src/TimeSeriesForecast.Api/Endpoints/ItemsEndpoints.cs:332-338 | If-Match with the current version's ETag passes, with any blanks before it and any blanks after it |
| ItemsEndpoints.StaleEtagRefused | src/TimeSeriesForecast.Api/Endpoints/ItemsEndpoints.cs:332-338 | If-Match with the ETag of any other version fails |
| ItemsEndpoints.ApplyPut | src/TimeSeriesForecast.Api/Endpoints/ItemsEndpoints.cs:483-489 | all seven body fields are written (name and description trimmed, status trimmed and lower-cased); PutKeepsTheRest gives the fields it keeps |
| ItemsEndpoints.ApplyPatch | src/TimeSeriesForecast.Api/Endpoints/ItemsEndpoints.cs:510-516 | each of the seven fields the patch carries is written as PUT writes it (strings trimmed, status lower-cased), each field it leaves out keeps its value, and no other field changes |
| ItemsEndpoints.EmptyPatchChangesNothing | src/TimeSeriesForecast.Api/Endpoints/ItemsEndpoints.cs:510-516 | a patch carrying no field leaves every field as it was |
| ItemsEndpoints.PutKeepsTheRest | src/TimeSeriesForecast.Api/Endpoints/ItemsEndpoints.cs:483-491 | a PUT leaves tags, deletion and archive flags, creation time and version alone |
| ItemsEndpoints.FullPatchIsPut | src/TimeSeriesForecast.Api/Endpoints/ItemsEndpoints.cs:510-516 | a patch carrying every field, with a description and a category, writes what the PUT of the same values writes |
| ItemsEndpoints.PatchIdempotent | src/TimeSeriesForecast.Api/Endpoints/ItemsEndpoints.cs:510-516 | applying the same patch twice writes what applying it once does |
| ItemsEndpoints.PutIdempotent | src/TimeSeriesForecast.Api/Endpoints/ItemsEndpoints.cs:483-491 | applying the same PUT twice writes what applying it once does |
| ItemsEndpoints.UpdateFull | src/TimeSeriesForecast.Api/Endpoints/ItemsEndpoints.cs:475-500 | 404 for an unknown item and 412 on an If-Match mismatch, both with no change; otherwise every field is replaced, the version goes up by exactly one, the ETag returned is the new version's, and no other item changes |
| ItemsEndpoints.UpdatePartial | src/TimeSeriesForecast.Api/Endpoints/ItemsEndpoints.cs:502-528 | as UpdateFull, except that only the fields the patch carries change |
| ItemsEndpoints.LostUpdatePrevented | src/TimeSeriesForecast.Api/Endpoints/ItemsEndpoints.cs:502-528 | two writers that read the same version: the first gets 200, the second 412, and the version rises by one only |
| ItemsEndpoints.ActionEffect | src/TimeSeriesForecast.Api/Endpoints/ItemsEndpoints.cs:1075-1092 | an action has an effect exactly when its trimmed, lower-cased form is one of the twelve known actions, and every status it sets is an item status |
| ItemsEndpoints.ApplyEffect | src/TimeSeriesForecast.Api/Endpoints/ItemsEndpoints.cs:1077-1088 | an action changes only the one workflow field it names (status, IsActive or IsVerified) to the value it names |
| ItemsEndpoints.WorkflowAction | src/TimeSeriesForecast.Api/Endpoints/ItemsEndpoints.cs:1070-1099 | 404 for an unknown item and 400 for an unknown action, both with no change; otherwise the action's effect and one version step on that item only |
| ItemsEndpoints.ActionIsNormalised | src/TimeSeriesForecast.Api/Endpoints/ItemsEndpoints.cs:1075 | " Submit " is the submit action and moves the item to review |
| ItemsEndpoints.BlankActionRefused | src/TimeSeriesForecast.Api/Endpoints/ItemsEndpoints.cs:1091 | a blank action is unknown |
| ItemsEndpoints.AddExistingTags | src/TimeSeriesForecast.Api/Endpoints/ItemsEndpoints.cs:1023-1029 | the current tags stay in place as a prefix; the result holds the current tags plus the requested ids that name existing tags; no duplicate is introduced |
| ItemsEndpoints.AttachTags | src/TimeSeriesForecast.Api/Endpoints/ItemsEndpoints.cs:1018-1034 | 404 with no change for an unknown item; otherwise only existing, absent tags are added (no duplicates) and the version goes up by one |
| ItemsEndpoints.DetachTags | src/TimeSeriesForecast.Api/Endpoints/ItemsEndpoints.cs:1036-1046 | 404 with no change for an unknown item; otherwise every listed id is removed, nothing else is, and the version goes up by one |
| ItemsEndpoints.SyncTags | src/TimeSeriesForecast.Api/Endpoints/ItemsEndpoints.cs:1048-1068 | 404 with no change for an unknown item; otherwise the item's tags become (kept desired) + (desired existing), which is exactly desired ∩ existing when all its tags exist; no duplicates; version + 1 |
| ItemsEndpoints.WrapInt32 | src/TimeSeriesForecast.Api/Endpoints/ItemsEndpoints.cs:229 | C# unchecked int arithmetic: the result is in the 32-bit range and equals the input when that is in range |
| ItemsEndpoints.PageSkipAsWritten | src/TimeSeriesForecast.Api/Endpoints/ItemsEndpoints.cs:229 | the skip as the code computes it: within the 32-bit range, congruent to (page-1)*size modulo 2^32, and equal to it when that fits |
| ItemsEndpoints.PageSkipOverflows | src/TimeSeriesForecast.Api/Endpoints/ItemsEndpoints.cs:229 | page 10 737 420 with size 200 gives a negative skip as written, and so the list query's window starts at -2147483496 |
| ItemsEndpoints.PageSkip | src/TimeSeriesForecast.Api/Endpoints/ItemsEndpoints.cs:229 | the intended skip is never negative, and agrees with the code exactly when (page-1)*size fits in an int |
| ItemsEndpoints.ClampTake | src/TimeSeriesForecast.Api/Endpoints/ItemsEndpoints.cs:218 | a size or limit is clamped to 1..200 and defaults to 20; an in-range value is kept |
| ItemsEndpoints.PageMode | src/TimeSeriesForecast.Api/Endpoints/ItemsEndpoints.cs:209-225 | page mode needs both page and size, and a cursor takes precedence over it |
| ItemsEndpoints.PageWindow | src/TimeSeriesForecast.Api/Endpoints/ItemsEndpoints.cs:208-244 | the window of the list query as written: every mode takes between 1 and 200 rows; outside page mode the skip is never negative; in page mode it is a 32-bit int |
| ItemsEndpoints.PageWindowBounds | src/TimeSeriesForecast.Api/Endpoints/ItemsEndpoints.cs:208-244 | 20 rows when neither size nor limit is given; the intended window never skips a negative count, and the code's window equals the intended one exactly when the page product fits in an int (so its skip is then not negative) |
| ItemsEndpoints.ConsecutivePagesAdjacent | src/TimeSeriesForecast.Api/Endpoints/ItemsEndpoints.cs:225-231 | in the intended windows page p + 1 starts exactly where page p ends; in the code's windows this holds while p * size fits in an int |
| Data.NewItem | src/TimeSeriesForecast.Core/Models/Item.cs:5-40 | a new item is a draft, active, unverified, untagged, neither deleted nor archived, at version 1 |
| AuthEndpoints.NewSession | src/TimeSeriesForecast.Api/Endpoints/AuthEndpoints.cs:66-73 | a new session is unrevoked and expires 30 days after now |
| AuthEndpoints.RevocationsKeptTransitive | src/TimeSeriesForecast.Api/Endpoints/AuthEndpoints.cs:131 | no sequence of endpoint calls un-revokes a session, since each call keeps revocations |
| AuthEndpoints.Revoke | src/TimeSeriesForecast.Api/Endpoints/AuthEndpoints.cs:131-132 | a revoked session is marked revoked at now, and every other field is kept |
| AuthEndpoints.SessionByHash | src/TimeSeriesForecast.Api/Endpoints/AuthEndpoints.cs:124 | the first session stored under the hash; None exactly when there is none |
| AuthEndpoints.SessionById | src/TimeSeriesForecast.Api/Endpoints/AuthEndpoints.cs:183 | the first session with the id; None exactly when there is none |
| AuthEndpoints.RefreshTarget | src/TimeSeriesForecast.Api/Endpoints/AuthEndpoints.cs:123-128 | a target is found only when the first session with the token's hash is unrevoked and unexpired and its user exists and is not locked |
| AuthEndpoints.Rotated | src/TimeSeriesForecast.Api/Endpoints/AuthEndpoints.cs:130-143 | the old session is revoked at now and every other field of it and every other row is kept; one new session is appended under the new id, with the new hash, the same user, user agent and address, created now, unrevoked and expiring in 30 days |
| AuthEndpoints.ExpiryIsStrict | src/TimeSeriesForecast.Api/Endpoints/AuthEndpoints.cs:127 | a session can be refreshed at its expiry instant and not one tick later |
| AuthEndpoints.RotationRefusesOldToken | src/TimeSeriesForecast.Api/Endpoints/AuthEndpoints.cs:124-131 | after a rotation the presented token is refused at any later time |
| AuthEndpoints.RotationAcceptsNewToken | src/TimeSeriesForecast.Api/Endpoints/AuthEndpoints.cs:133-146 | the newly issued token refreshes its own session while unexpired and the user is unlocked |
| AuthEndpoints.AddSession | src/TimeSeriesForecast.Api/Endpoints/AuthEndpoints.cs:99-109 | appends exactly one new session for the user, under a fresh id |
| AuthEndpoints.RoleGrants | src/TimeSeriesForecast.Api/Endpoints/AuthEndpoints.cs:58-60 | the grants are exactly the user's rows for the roles with the given names |
| AuthEndpoints.AddUser | src/TimeSeriesForecast.Api/Endpoints/AuthEndpoints.cs:55 | adds one user under a fresh id, keeping emails unique |
| AuthEndpoints.EmailTaken | src/TimeSeriesForecast.Api/Endpoints/AuthEndpoints.cs:49 | any user with the email makes it taken; an empty table takes none |
| AuthEndpoints.IsAdmin | src/TimeSeriesForecast.Api/Endpoints/AuthEndpoints.cs:159 | the admin role or the admin:manage permission makes a caller an admin; a caller with neither has no admin rights |
| AuthEndpoints.Register | src/TimeSeriesForecast.Api/Endpoints/AuthEndpoints.cs:45-79 | 400 for a blank and 409 for a taken normalised email, both with no change; otherwise one unverified user, the "user" role grant and one 30-day session are added; revocations are kept |
| AuthEndpoints.Login | src/TimeSeriesForecast.Api/Endpoints/AuthEndpoints.cs:81-113 | 401 for an unknown email, 403 for a locked account, 401 for a wrong password, the 2FA challenge without a code, all with no change; otherwise one 30-day session is appended |
| AuthEndpoints.Refresh | src/TimeSeriesForecast.Api/Endpoints/AuthEndpoints.cs:121-147 | 401 with no change unless RefreshTarget finds a session; then the table is Rotated and the new token handed out |
| AuthEndpoints.Logout | src/TimeSeriesForecast.Api/Endpoints/AuthEndpoints.cs:149-167 | an unknown token is ok with no change; a caller with a parseable uid who is neither owner nor admin gets 403 with no change; anyone else revokes exactly that session |
| AuthEndpoints.RevokeSession | src/TimeSeriesForecast.Api/Endpoints/AuthEndpoints.cs:178-191 | 401 without a parseable uid, 404 for an unknown id, 403 for anyone but the owner (admins included), all with no change; the owner revokes exactly that session |
| AdminEndpoints.RevokeSession | src/TimeSeriesForecast.Api/Endpoints/AdminEndpoints.cs:177-185 | 404 with no change for an unknown id; otherwise exactly that session is revoked at now |
| AdminEndpoints.SetLocked | src/TimeSeriesForecast.Api/Endpoints/AdminEndpoints.cs:72-88 | 404 with no change for an unknown user; otherwise only that user's lock flag is set |
| AdminEndpoints.LockUser | src/TimeSeriesForecast.Api/Endpoints/AdminEndpoints.cs:72-79 | 404 with no change for an unknown user; otherwise only that user becomes locked |
| AdminEndpoints.UnlockUser | src/TimeSeriesForecast.Api/Endpoints/AdminEndpoints.cs:81-88 | 404 with no change for an unknown user; otherwise only that user becomes unlocked |
| AdminEndpoints.LockedUserCannotRefresh | src/TimeSeriesForecast.Api/Endpoints/AdminEndpoints.cs:76 | once a user is locked, no token refreshes any of their sessions |
| AdminEndpoints.RoleNameTaken | src/TimeSeriesForecast.Api/Endpoints/AdminEndpoints.cs:100 | any role with the name makes it taken; an empty table takes none |
| AdminEndpoints.CreateRole | src/TimeSeriesForecast.Api/Endpoints/AdminEndpoints.cs:96-105 | 400 for a blank and 409 for a taken normalised name, both with no change; otherwise one role with that name and no permissions is added |
| AdminEndpoints.CreateUser | src/TimeSeriesForecast.Api/Endpoints/AdminEndpoints.cs:51-70 | 400 for a blank and 409 for a taken normalised email, both with no change; otherwise one verified user is added with the grants of the requested role names |
| AdminEndpoints.AddPermission | src/TimeSeriesForecast.Api/Endpoints/AdminEndpoints.cs:116-119 | adds one permission row under a fresh id |
| AdminEndpoints.EnsurePermissions | src/TimeSeriesForecast.Api/Endpoints/AdminEndpoints.cs:112-120 | every normalised desired name ends up with a permission row; existing rows are kept unchanged |
| AdminEndpoints.MergePermissions | src/TimeSeriesForecast.Api/Endpoints/AdminEndpoints.cs:124-129 | the role's permission list becomes exactly the desired ids, without duplicates |
| AdminEndpoints.SyncRolePerms | src/TimeSeriesForecast.Api/Endpoints/AdminEndpoints.cs:107-133 | 404 with no change for an unknown role; otherwise the desired names all have rows and the role holds exactly their ids, once each; other roles are unchanged |
| AdminEndpoints.Upserted | src/TimeSeriesForecast.Api/Endpoints/AdminEndpoints.cs:146-158 | after the write the table answers the new state for the key; the first row with the key is overwritten, or a row appended; every other row, later rows with the same key included, is unchanged |
| AdminEndpoints.UpsertFlag | src/TimeSeriesForecast.Api/Endpoints/AdminEndpoints.cs:141-162 | 400 with no change for a blank trimmed key; otherwise the flag row is upserted and the key's cache entry dropped, so every later lookup answers the new state until the cache is refilled |
| FeatureFlags.StoredValue | src/TimeSeriesForecast.Api/Middleware/FeatureFlags.cs:27 | the Enabled of the first row with the key; false when no row has the key |
| FeatureFlags.CacheKey | src/TimeSeriesForecast.Api/Middleware/FeatureFlags.cs:26 | the entry name is "ff:" followed by the key, so the key can be read back from it |
| FeatureFlags.Hit | src/TimeSeriesForecast.Api/Middleware/FeatureFlags.cs:26 | no entry, or an entry whose expiry has come, is a miss |
| FeatureFlags.Lookup | src/TimeSeriesForecast.Api/Middleware/FeatureFlags.cs:24-30 | a hit answers the cached value; a miss, in particular an absent entry, answers StoredValue |
| FeatureFlags.FeatureFlagsService.IsEnabled | src/TimeSeriesForecast.Api/Middleware/FeatureFlags.cs:24-30 | a hit answers the cached value and leaves the cache alone; a miss answers the table's value and caches it until now + 30 s |
| FeatureFlags.FeatureFlagsService.Invalidate | src/TimeSeriesForecast.Api/Middleware/FeatureFlags.cs:32-41 | a null or blank key changes nothing; otherwise exactly that key's entry is removed |
| FeatureFlags.CacheKeyInjective | src/TimeSeriesForecast.Api/Middleware/FeatureFlags.cs:26 | distinct keys use distinct cache entries |
| FeatureFlags.InvalidateThenLookup | src/TimeSeriesForecast.Api/Middleware/FeatureFlags.cs:24-41 | after invalidation the next lookup answers what the table holds |
| FeatureFlags.InvalidateIsLocal | src/TimeSeriesForecast.Api/Middleware/FeatureFlags.cs:39 | invalidating one key changes no other key's answer |
| FeatureFlags.StalenessBounded | src/TimeSeriesForecast.Api/Middleware/FeatureFlags.cs:24-30 | 30 s after the last cache write every lookup answers the current table |
| FeatureFlags.LookupKeepsWrittenBy | src/TimeSeriesForecast.Api/Middleware/FeatureFlags.cs:28 | a lookup at time t writes no entry that outlives t + 30 s |
| FeatureFlags.CachedAnswerStable | src/TimeSeriesForecast.Api/Middleware/FeatureFlags.cs:26-28 | a cached answer is served unchanged until it expires, whatever the table becomes |
| ForecastEngine.Insert | src/TimeSeriesForecast.Core/Forecasting/ForecastEngine.cs:79 | inserting keeps every value and adds x once |
| ForecastEngine.InsertSorted | src/TimeSeriesForecast.Core/Forecasting/ForecastEngine.cs:79 | inserting into an ascending list keeps it ascending |
| ForecastEngine.SortSeq | src/TimeSeriesForecast.Core/Forecasting/ForecastEngine.cs:79 | the reference sort is ascending and a permutation of its input |
| ForecastEngine.SortedPermutationUnique | src/TimeSeriesForecast.Core/Forecasting/ForecastEngine.cs:79 | two ascending permutations of the same values are equal, so any correct sort gives the same median |
| ForecastEngine.InsertAt | src/TimeSeriesForecast.Core/Forecasting/ForecastEngine.cs:79 | one insertion step extends the sorted prefix by one element and keeps the values |
| ForecastEngine.SortInPlace | src/TimeSeriesForecast.Core/Forecasting/ForecastEngine.cs:79 | the gaps array ends ascending and a permutation of what it held |
| ForecastEngine.Gaps | src/TimeSeriesForecast.Core/Forecasting/ForecastEngine.cs:74-78 | one gap fewer than there are points |
| ForecastEngine.InferredStep | src/TimeSeriesForecast.Core/Forecasting/ForecastEngine.cs:70-83 | the step is always positive |
| ForecastEngine.InferStep | src/TimeSeriesForecast.Core/Forecasting/ForecastEngine.cs:70-83 | collecting the gaps, sorting them in place and taking the middle one gives exactly InferredStep |
| ForecastEngine.RegularHistoryStep | src/TimeSeriesForecast.Core/Forecasting/ForecastEngine.cs:70-83 | a history spaced evenly by d > 0 has step d |
| ForecastEngine.StepIsAGap | src/TimeSeriesForecast.Core/Forecasting/ForecastEngine.cs:80-81 | the step is one of the gaps or the one-day fallback |
| ForecastEngine.SeasonIndex | src/TimeSeriesForecast.Core/Forecasting/ForecastEngine.cs:47-48 | the index the value is copied from always lies inside the history |
| ForecastEngine.StepTime | src/TimeSeriesForecast.Core/Forecasting/ForecastEngine.cs:49 | forecast point k lies k + 1 steps after the start, so one step after point k - 1 and, for a positive step, after the start |
| ForecastEngine.SeasonalPoint | src/TimeSeriesForecast.Core/Forecasting/ForecastEngine.cs:47-49 | a seasonal-naive point lies after the last observation (for a positive step) and copies a value the history holds |
| ForecastEngine.SeasonalNaive | src/TimeSeriesForecast.Core/Forecasting/ForecastEngine.cs:33-52 | throws (None) exactly for an empty history or a negative horizon; otherwise exactly `horizon` points, point k at last + (k+1)·step with the value at SeasonIndex, a season below 1 counting as 1 |
| ForecastEngine.ExponentialSmoothing | src/TimeSeriesForecast.Core/Forecasting/ForecastEngine.cs:9-31 | throws (None) exactly for an empty history or a negative horizon; otherwise exactly `horizon` points on the same time grid, each carrying the level |
| ForecastEngine.ForecastTimesIncrease | src/TimeSeriesForecast.Core/Forecasting/ForecastEngine.cs:49 | forecast times lie after the last observation and increase strictly, one step apart |
| ForecastEngine.SeasonalRepeat | src/TimeSeriesForecast.Core/Forecasting/ForecastEngine.cs:47 | when the season fits in the history, forecast values repeat with the season as period |
| ForecastEngine.LongSeasonStartsAtFirstPoint | src/TimeSeriesForecast.Core/Forecasting/ForecastEngine.cs:47-48 | a season longer than the history makes the early points copy the first observation |
| SeriesEndpoints.Rows | src/TimeSeriesForecast.Api/Endpoints/SeriesEndpoints.cs:115-118 | one row per imported point, in file order, carrying the series id, timestamp and value |
| SeriesEndpoints.PointsOf | src/TimeSeriesForecast.Api/Endpoints/SeriesEndpoints.cs:111 | the rows selected are exactly those of the series |
| SeriesEndpoints.ImportPoints | src/TimeSeriesForecast.Api/Endpoints/SeriesEndpoints.cs:82-124 | 404, not-a-form and no-file answers leave the table alone; otherwise "replace" (lower-cased) drops the series' rows first, the file's points are appended, and the count and mode (blank reported as "append") are answered |
| SeriesEndpoints.ReplaceLeavesOnlyImported | src/TimeSeriesForecast.Api/Endpoints/SeriesEndpoints.cs:109-118 | after a replace the series holds exactly the imported points, in file order |
| SeriesEndpoints.AppendKeepsExisting | src/TimeSeriesForecast.Api/Endpoints/SeriesEndpoints.cs:115-118 | an append keeps the series' points and adds the imported ones after them |
| SeriesEndpoints.RemovalKeepsOtherSeries | src/TimeSeriesForecast.Api/Endpoints/SeriesEndpoints.cs:111-112 | removing one series' points leaves every other series' points as they were |
| SeriesEndpoints.ImportKeepsOtherSeries | src/TimeSeriesForecast.Api/Endpoints/SeriesEndpoints.cs:109-118 | an import in either mode leaves every other series' points as they were |
| SeriesEndpoints.MethodName | src/TimeSeriesForecast.Api/Endpoints/SeriesEndpoints.cs:159-172 | "ets" and "exp" (after trimming and lower-casing) are kept; every other request is recorded as "seasonalnaive" |
| SeriesEndpoints.Holdout | src/TimeSeriesForecast.Api/Endpoints/SeriesEndpoints.cs:153 | the holdout is between 0 and 3650 and always leaves a training point; a request in range is kept, a negative one becomes 0, and one above min(3650, count - 1) becomes that bound |
| SeriesEndpoints.Split | src/TimeSeriesForecast.Api/Endpoints/SeriesEndpoints.cs:155-156 | the training list is never empty; it has count - holdout elements and the actual values have holdout elements |
| SeriesEndpoints.SplitPartitions | src/TimeSeriesForecast.Api/Endpoints/SeriesEndpoints.cs:155-156 | the training points are a prefix of the history, and their values followed by the actual values are the history's values |
| SeriesEndpoints.HoldoutPairs | src/TimeSeriesForecast.Api/Endpoints/SeriesEndpoints.cs:175-181 | the predicted and actual lists handed to Evaluate have equal length, min(holdout, forecast length), and pair forecast i with actual i |
| SeriesEndpoints.RunMethod | src/TimeSeriesForecast.Api/Endpoints/SeriesEndpoints.cs:158-172 | exactly `horizon` points on the training step grid; the seasonal-naive points for "seasonalnaive", the level otherwise |
| SeriesEndpoints.RecordRun | src/TimeSeriesForecast.Api/Endpoints/SeriesEndpoints.cs:152-194 | appends one run under a fresh id with the dispatched method, the clamped horizon and holdout and the forecast on the training grid, whose values are the seasonal-naive points for "seasonalnaive" and the smoothed level otherwise; the evaluation pairs have equal length min(holdout, horizon) |
| SeriesEndpoints.Forecast | src/TimeSeriesForecast.Api/Endpoints/SeriesEndpoints.cs:139-206 | 403 exactly when the flag is off and 400 exactly when it is on and fewer than three points exist, both without a run; otherwise one run is recorded as RecordRun states |

## Left out

- HTTP delivery, `EnsureSuccessStatusCode`, `Task.Delay`, cancellation and the swallowed worker exceptions: the webhook's answer is the `Delivery` input of a tick.
- Backoff uses integer powers of two. `Math.Pow` is exact for attempts 1 to 4, the only ones that back off.
- OutboxWorker.OldestReady: when two ready messages share a CreatedAt, the first stored is chosen. The database's order for ties is unspecified.
- Idempotency.Store: the unique (key, route) index makes the real save throw on a duplicate. The model reports `stored == false` and changes nothing instead of raising.
- Idempotency.Guarded: business logic behind the guard is reduced to its outcome (created body or rejection). The separate saves of the change, the outbox message and the record are not atomic, and the model runs them as one step.
- Cross-request concurrency: every handler runs alone on the tables.
- Cryptography, randomness and passwords. SHA-256 is the abstract `hashToken`, and new refresh tokens are parameters. `PasswordHasher` is the `passwordOk` input. JWT access tokens are not modelled.
- `Guid.NewGuid` is a counter. The ids of rows whose id the core never reads (idempotency records, dead letters, user-role and series-point rows) are not stored.
- JSON, CSV and form parsing: the imported points and the request fields arrive parsed. Response bodies are strings the handler hands over.
- Cursor decoding in the list query is left out: cursor mode's filter on CreatedAt is not modelled, only its window. Search, sort and `Include` translation are left out as well.
- The list query's rows: the window (skip, take) is modelled, the rows it selects are not.
- ItemsEndpoints.SyncTags: the desired ids are added in request order. The source iterates a hash set, whose order is unspecified, so the contract fixes no order for the added tags.
- Strings: white space is ASCII white space plus NEL (U+0085) and NBSP (U+00A0). The other Unicode spaces (U+1680, U+2000 to U+200A, U+2028, U+2029, U+202F, U+205F, U+3000) and non-ASCII case mapping are not modelled.
- Common.Trim, Common.TrimStart and Common.TrimEnd: their own ensures give only a length bound. Their characterisation is the `TrimFacts` family of lemmas, which keeps the facts out of every caller's context.
- ForecastEngine.ExponentialSmoothing and SeriesEndpoints.RunMethod: the smoothed level (a floating-point recursion over the history with a clamped alpha) is a parameter. Only its time grid and the copying of the level are modelled.
- `Evaluate` (MAE and RMSE with `Math.Sqrt`) is floating point. The model stops at the pairs handed to it; ForecastRun's Mae and Rmse, and its CreatedAt, are not kept.
- SeriesEndpoints.Forecast: the history is a parameter constrained to be the series' rows ordered by timestamp. The order of equal timestamps is the database's.
- SeriesEndpoints.Forecast: its own ensures omit the forecast points, both their timestamps and their values. RecordRun states both for the run it appends.
- TimeSpan and `long` overflow of timestamps and steps is not modelled: integers are unbounded there. ForecastEngine.StepTime multiplies the step by h exactly, where the source multiplies a TimeSpan by a double, which rounds to the nearest tick once the product passes 2^53 ticks.
- Every request uses one `now`. The source reads the clock more than once in some handlers.
- Activity and audit logs, `ListSessions` and other read-only handlers are left out. So are the CRUD handlers outside the core (series create and delete, items bulk, import and export, catalog, analytics, files). Series create follows the same guard as `Idempotency.Guarded`.
- `Verify2fa` is an alias of Login and is not modelled separately. The 2FA code is only checked for presence, as in the source.

## Findings

| source | as written | input that shows it | evidently intended | confidence | as-written member | corrected member |
|---|---|---|---|---|---|---|
| src/TimeSeriesForecast.Api/Endpoints/ItemsEndpoints.cs:229 | `(page - 1) * pageSize` is computed in unchecked 32-bit `int` | page=10737420, size=200: the product 2147483800 wraps to -2147483496, a negative skip | skip the (page - 1) * size rows of the earlier pages, never a negative count (clamp the page, or compute in `long`) | not executed | ItemsEndpoints.PageSkipOverflows | ItemsEndpoints.PageSkip |
