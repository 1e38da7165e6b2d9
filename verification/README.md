# Verification of the backend's stateful protocols

This project models the parts of the video backend that keep state under concurrency, and proves
properties of whole runs of them. Every Redis command, every database statement or transaction and
every clock reading is one atomic step.

| files | what they model |
|---|---|
| `BanRecords`, `BanService` | ban rows, their queries, cache entries; the ban service with calls one at a time |
| `IpBanProtocol`, `UserBanProtocol` | the same calls interleaved at every step |
| `IpBanWrites`, `UserBanWrites` | what a returned upsert or lift did, and until when it is seen |
| `IpBanRefusals`, `IpBanExpiry`, `IpBanFailures`, `UserBanFailures` | how long a stale refusal lasts, that no refusal outlives its ban, runs in which a verdict contradicts a returned write, and when exactly there are none |
| `HubState`, `RealtimeHub`, `HubDelivery` | the WebSocket hub, its locked operations, and delivery over every interleaving |
| `TokenRotation`, `RefreshTokens` | refresh-token rotation as values, and as the store's transactions |
| `SignupLock` | completing a signup under a Redis lock with a lease |
| `SendTickets` | single-use send tickets |
| `RedisLimiter`, `OtcLimiter` | the non-atomic Redis limiter, and the in-memory limiter with its cleanup |
| `ReportReasons`, `ModerationState`, `AbuseReports` | report reasons, moderation of videos, the report transactions |
| `BulkDownload`, `Likes`, `WorkerRetry` | bulk-download jobs, like counters, the video worker's retries |
| `Common` | options, instants, a few facts about sets |

Imperative code is a class whose methods are proved against functions of the tables; the functions
are what the lemmas are about. Code that other callers interleave with is a state machine: `Step`
says what each event does, a `Run` lists states and events, and the theorems hold of every state of
every run. Instants are integers of nanoseconds, so that the code's whole-second comparisons can be
written as they are.

## What the model assumes

- No Redis command fails. Redis serves no entry past its TTL and may forget one earlier, at any step.
- The theorems about IP bans say whether the key that holds their version may be lost. It must not be:
  `IpBanFailures.NetworkBansNeedTheVersion` is the exact condition, with a run that fails.
- The database refuses what its unique indexes and foreign keys forbid. Clocks do not run backwards.
- Random identifiers, tokens and lock values do not repeat, and a hash matches only its own secret.
- One subscriber feeds the hub, one fan-out after the other.
- Refreshes run one transaction at a time, and no single token row is deleted; the code takes no row
  lock, whatever its comment says.

## Where the guarantees of the caches end

- A returned ban of a network is seen by every later check until it expires or another call writes its
  rows, in every run, exactly when the version key is never lost
  (`IpBanFailures.NetworkBansNeedTheVersion`).
- A returned lift is seen by every later check of an address, in every run, exactly when no row of the
  address itself is open in the run (`IpBanFailures.LiftsNeedNoOpenRow`). Otherwise, once no row bans
  the address any more, whether it was lifted, shortened or ran out, a stale refusal ends within two
  call limits and one TTL (`IpBanRefusals.LiftIsSeenInTime`), and there is none at all if no other
  call for the address was in flight when its entry was deleted (`IpBanWrites.LoneLiftIsSeen`).
- A returned user ban, and a returned user lift, is seen by every later check, in every run, exactly
  when writes overlap with no other call for the user (`UserBanFailures.WritesNeedToRunAlone`); counted
  in calls, when at most one is in flight (`BansNeedSolitude`, `LiftsNeedSolitude`). Otherwise a stale
  clearance ends within one call limit and the negative TTL
  (`UserBanProtocol.WrongClearanceIsBounded`), a stale refusal within two call limits and the longest
  positive TTL (`UserBanProtocol.WrongRefusalIsBounded`).

Each failing half is a run from an empty Redis, at whose end the rows contradict the verdict.

## Where the code differs from its comments, or from what one would expect

- An expired refresh token is not cleaned up: its deletion is rolled back when no other row matches
  (`src/api/src/auth/service.rs:357`, `369`), so the rows stay as they were.
- The worker's comment says that FAILED is written when all retries failed
  (`src/worker/src/main.rs:202`). The last error is never cleared, so a success after a transient
  error is overwritten with FAILED. `WorkerRetry.SuccessAfterErrorIsFailed` gives the run,
  `CommentHolds` the exact condition on a job, `CommentNeedsOneAttempt` the one on the configuration.
- The hub leaves an empty entry behind for a user refused by a per-user limit of zero
  (`src/api/src/realtime/hub.rs:62`), unless a global limit of zero refused first (line 57). No user
  maps to an empty entry, in every run, exactly when the per-user limit is positive or the global one
  is zero (`HubDelivery.EmptyEntriesNeedZeroLimit`).
- The cleanup of the in-memory limiter is invisible, and the rate of twice the limit per window holds,
  only for a positive window: with a window of zero it forgets the entry that would refuse
  (`OtcLimiter.CleanupIsInvisible`, `OtcLimiter.RateIsBounded`).
- A signup call that outlives its lock lets a second one register the same ticket
  and get an answer of its own (`SignupLock.OnceNeedsTheLease`, `SignupLock.AgreementNeedsTheLease`). The second registration needs another username, because
  `register_with_username` refuses the one just taken (`src/api/src/auth/service.rs:223-228`); it then
  renames the same user and issues further tokens.
- The Redis limiter's unsigned subtraction can underflow as soon as two callers overlap
  (`RedisLimiter.UnderflowNeedsCompany`), and an increment by zero looks like the creation of the key
  (`RedisLimiter.AttendanceNeedsPositiveAmounts`). No caller passes zero: the only one with an amount of
  its own first rejects files without a container signature (`src/api/src/videos/handlers.rs:593-611`).
- A list of repeated videos is refused as unavailable with an empty list of missing videos
  (`src/api/src/videos/handlers.rs:1542-1554`).
- The bulk worker does not look at moderation when it checks the videos again, so a video quarantined
  after the request is still packed (`src/worker/src/bulk_download.rs:149-154`):
  `BulkDownload.HiddenIsPacked` is such a job and `BulkDownload.HiddenStaysOut` the exact condition.
- Filing a report again does not renew its creation time, so an old open report can fall out of the
  window that its own severe resubmission is judged by (`ModerationState.SubmitDecides`).

## Model

| member | source | states |
|---|---|---|
| BanRecords.Latest | src/api/src/services/ban_service.rs:176-190 | the single-row query finds a row exactly when one qualifies, and then one created last |
| BanRecords.ActiveCidrRows | src/api/src/services/ban_service.rs:358-375 | exactly the active network rows of the address family, longest prefix first and newest first within a prefix |
| BanRecords.ContainsIsPrefixMatch | src/api/src/services/ban_service.rs:377-386 | a network contains exactly the addresses of its family that agree with it on each of the first prefix bits |
| BanRecords.ContainsIsBlock | src/api/src/services/ban_service.rs:377-386 | these are one aligned block of 2^(width - prefix) addresses with the written one in it; the full prefix contains that address alone |
| BanRecords.LongerPrefixIsPart | src/api/src/services/ban_service.rs:377-386 | a longer prefix around a member is a part of the network |
| BanRecords.PrivateClassA | src/api/src/services/ban_service.rs:377-386 | 10.0.0.0/8 is 10.0.0.0 to 10.255.255.255 |
| BanRecords.FirstHit | src/api/src/services/ban_service.rs:377-386 | the first row whose network contains the address, or none if no row's does |
| BanRecords.CidrMatchIsExact | src/api/src/services/ban_service.rs:358-386 | the family prefilter and first match lose nothing: a match exists exactly when an active network row covers the address |
| BanRecords.CidrMatchIsMostSpecific | src/api/src/services/ban_service.rs:370-386 | no active covering network has a longer prefix than the match, or the same and a later creation |
| BanRecords.UpsertDecidesItsTarget | src/api/src/services/ban_service.rs:252-284 | an upsert is let through by the unique index, keeps it, makes its target banned until the given instant and changes no other target |
| BanRecords.LiftFreesItsTarget | src/api/src/services/ban_service.rs:306-326 | after a lift the target is banned at no instant, and every other target as before |
| BanRecords.StoreAfterFind | src/api/src/services/ban_service.rs:491-530 | the unique index lets an upsert through whose target was left alone since its row was looked up |
| BanRecords.LiftAfterFind | src/api/src/services/ban_service.rs:558-571 | a lift whose target was left alone since then leaves no open row of it |
| BanRecords.ActiveTtl | src/api/src/services/ban_service.rs:123-134 | a temporary ban is cached for the whole seconds it has left, at least one and at most 300, a permanent one for the permanent TTL; an entry never outlasts a ban with a second or more to run |
| BanRecords.ServedEntryIsExact | src/api/src/services/ban_service.rs:166-174 | serving an unexpired backed entry gives the uncached answer despite the comparison in whole seconds |
| BanRecords.FreshEntryIsServed | src/api/src/services/ban_service.rs:166-174 | and the entry of a ban with a second left to run is not taken for expired |
| BanRecords.QueryEntry | src/api/src/services/ban_service.rs:202-227 | the entry of a single-row query says what the rows say, and is backed by them |
| BanRecords.NetworkEntry | src/api/src/services/ban_service.rs:432-450 | the entry of the network query says what the rows say, and is backed by them |
| BanService.Service.Elapse | src/api/src/services/ban_service.rs:136-164 | time passing and Redis forgetting entries between two steps keep every remaining entry backed |
| BanService.Service.ServeUserEntry | src/api/src/services/ban_service.rs:193-200 | a cached user verdict that is served is the uncached answer at that instant; an expired entry is dropped |
| BanService.Service.QueryUser | src/api/src/services/ban_service.rs:202-227 | the queried verdict is the rows' answer within the call, and the entry written is sound |
| BanService.Service.IsUserBanned | src/api/src/services/ban_service.rs:192-228 | the verdict is the uncached database answer at an instant within the call |
| BanService.Service.StoreUserBan | src/api/src/services/ban_service.rs:252-284 | the row is stored as the upserted rows, with only the user's own cache entry left to replace |
| BanService.Service.UpsertUserBan | src/api/src/services/ban_service.rs:245-298 | the rows become the upserted rows and every cache entry stays sound |
| BanService.Service.LiftUserBan | src/api/src/services/ban_service.rs:300-327 | the rows become the lifted rows, the answer says whether one was open, and every cache entry stays sound |
| BanService.Service.ServeExactEntry | src/api/src/services/ban_service.rs:389-395 | an exact entry is served only when positive and unexpired, and then the address has an active row |
| BanService.Service.QueryExact | src/api/src/services/ban_service.rs:397-419 | the exact query's verdict is the rows' answer within the call |
| BanService.Service.ServeVerdict | src/api/src/services/ban_service.rs:425-430 | a verdict stored under the current version is the uncached network answer |
| BanService.Service.QueryNetworks | src/api/src/services/ban_service.rs:432-450 | the network verdict is the rows' answer, and is stored soundly under the current version |
| BanService.Service.IsIpBanned | src/api/src/services/ban_service.rs:388-451 | the verdict is the uncached answer, exact rows and networks together, at an instant within the call |
| BanService.Service.StoreIpBan | src/api/src/services/ban_service.rs:491-530 | the row is stored as the upserted rows, with only the target's exact entry and the version left to change |
| BanService.Service.UpsertIpBan | src/api/src/services/ban_service.rs:484-550 | the rows become the upserted rows, the version grows by one, and every entry that can still be served stays sound |
| BanService.Service.StoreIpLift | src/api/src/services/ban_service.rs:558-571 | the row is lifted, the answer says whether one was open, with only the exact entry and the version left to change |
| BanService.Service.LiftIpBan | src/api/src/services/ban_service.rs:552-584 | the same for the whole lift: lifted rows, a version grown by one, and only sound entries to serve |
| BanService.UpsertKeepsEntry | src/api/src/services/ban_service.rs:260-284 | an upsert leaves the entries of other targets as backed as they were |
| BanService.LiftKeepsEntry | src/api/src/services/ban_service.rs:313-322 | so does a lift |
| IpBanProtocol.RunIsFresh | src/api/src/services/ban_service.rs:388-451 | in every state of every interleaving, a verdict stored under a version, or held by a call, was read by some check's network query made after the version reached it |
| IpBanProtocol.CheckIsFresh | src/api/src/services/ban_service.rs:421-450 | a check answered by the networks used a read no older than the version at its start, and saw no exact row during the call; a check that clears is always answered by the networks |
| IpBanProtocol.SettledBanIsSeen | src/api/src/services/ban_service.rs:352-356 | an address covered from a completed bump on is found banned by every check that starts after the bump |
| IpBanProtocol.BannedNetworkIsSeen | src/api/src/services/ban_service.rs:543-547 | as long as the rows ban a network whose upsert has returned, every check started later says banned for every address in it |
| IpBanProtocol.ExactBanIsSeen | src/api/src/services/ban_service.rs:389-407 | a ban of the address itself is seen by every check during which it is active |
| IpBanProtocol.RunStaysExactClean | src/api/src/services/ban_service.rs:397-419 | from a state in which neither Redis nor a call claims a ban of the address itself, none does while no row of its own is open |
| IpBanProtocol.LiftIsSeen | src/api/src/services/ban_service.rs:571-583 | once a lift has returned, every check started later clears an address that no active network covers, if no row of its own is open in the run; networks that expired without being lifted do not matter |
| IpBanProtocol.NetworkRefusalIsOld | src/api/src/services/ban_service.rs:571-583 | and whatever rows the address has or had, no later check refuses it on account of such networks |
| IpBanWrites.RowsGrow | src/api/src/services/ban_service.rs:484-584 | in every interleaving rows are never deleted and never change their target, and those of a target change only by writes of the target |
| IpBanWrites.RunKeepsIndex | src/api/src/services/ban_service.rs:501-571 | at most one open row per target in every state of every interleaving |
| IpBanWrites.UpsertStoresItsRow | src/api/src/services/ban_service.rs:491-550 | every upsert that has returned stored, in a step of its own before the bump, an open row of its target with its expiry and, for an address, then its entry |
| IpBanWrites.UpsertedNetworkIsSeen | src/api/src/services/ban_service.rs:501-547 | once an upsert of a network has returned, every check started later says banned for every address in it, until the ban expires or another call writes rows of the network |
| IpBanWrites.UpsertedIpIsSeen | src/api/src/services/ban_service.rs:501-547 | the same for an upsert of the address itself |
| IpBanWrites.RefusalNeedsCompany | src/api/src/services/ban_service.rs:491-530 | the index refuses an upsert only if another call wrote rows of the target between its lookup and its write |
| IpBanWrites.LiftLiftsItsRow | src/api/src/services/ban_service.rs:558-583 | every lift that has returned marked the row it had found as lifted, touched no other and, for an address, then deleted its entry, before the bump |
| IpBanWrites.LiftsNeverFail | src/api/src/services/ban_service.rs:558-571 | no lift is refused |
| IpBanWrites.LiftedTargetIsFree | src/api/src/services/ban_service.rs:558-571 | if no other call wrote its target since its lookup, no row of the target is open from a lift on until the next write of it |
| IpBanWrites.LiftedNetworkIsSeen | src/api/src/services/ban_service.rs:558-583 | once a lift of a network has returned, no check started later refuses on its account, until another call writes its rows |
| IpBanWrites.LoneLiftIsSeen | src/api/src/services/ban_service.rs:571-583 | once a lift of an address has returned, every check started later clears the address until another call writes its rows, if no check or upsert of it was in flight when its entry was deleted and no active network covers it |
| IpBanExpiry.RunQuotes | src/api/src/services/ban_service.rs:388-451 | in every interleaving each positive entry, stored or held by a call, quotes the expiry of a row that bans its address |
| IpBanExpiry.RefusalIsUnexpired | src/api/src/services/ban_service.rs:166-174 | and no check refuses on account of a ban that had run out when the check started, whatever entry it was served |
| IpBanRefusals.RunIsTraced | src/api/src/services/ban_service.rs:397-407 | in every interleaving, each positive exact entry and each refusal on account of the address itself comes from a recent state of the rows |
| IpBanRefusals.ExactRefusalIsBounded | src/api/src/services/ban_service.rs:389-407 | once the rows no longer ban the address itself, lifted or not, a refusal on its account is given less than two call limits plus the longest positive TTL later |
| IpBanRefusals.LiftIsSeenInTime | src/api/src/services/ban_service.rs:552-584 | after a lift has returned, a later check of an address that nothing bans any more refuses only by a stale exact entry, and only for that long after the bump |
| IpBanFailures.LateExactWriteOutlivesLift | src/api/src/services/ban_service.rs:406-407 | a run from an empty Redis in which a slow check stores the positive exact entry after the lift deleted it, and a check started after the lift returned refuses an address that nothing bans |
| IpBanFailures.LiftsNeedNoOpenRow | src/api/src/services/ban_service.rs:552-584 | returned lifts are seen by all later checks of an address, in every run, exactly when no row of its own is open in the run |
| IpBanFailures.LostVersionServesOldVerdict | src/api/src/services/ban_service.rs:346-350 | a run in which the version key is lost and a check started after the upsert of a network returned clears an address of it although the row is active at every instant |
| IpBanFailures.NetworkBansNeedTheVersion | src/api/src/services/ban_service.rs:346-356 | returned network bans that have not expired and whose rows no other call has written are seen by all later checks, in every run, exactly when the version key is never lost |
| UserBanProtocol.RunIsTraced | src/api/src/services/ban_service.rs:192-228 | in every state of every interleaving, each user entry and verdict comes from a recent state of the rows |
| UserBanProtocol.VerdictIsRecent | src/api/src/services/ban_service.rs:192-228 | every verdict was the database's answer at most a call limit (two, for a ban) plus one TTL before it was given, and no refusal is on account of a ban that had run out when the check started |
| UserBanProtocol.WrongClearanceIsBounded | src/api/src/services/ban_service.rs:214-226 | a clearance that contradicts an upsert was read by some check's database query in a state no later than the write, and is given less than the call limit plus the negative TTL after it |
| UserBanProtocol.WrongRefusalIsBounded | src/api/src/services/ban_service.rs:286-327 | once the rows no longer ban the user, by a lift, an upsert or the passing of time, a refusal was the answer for an earlier instant, and is given less than two call limits plus the longest positive TTL later |
| UserBanWrites.RunKeepsIndex | src/api/src/services/ban_service.rs:252-322 | at most one open row in every state of every interleaving |
| UserBanWrites.UpsertStoresItsRow | src/api/src/services/ban_service.rs:252-298 | every upsert that has returned stored an open row with its expiry, and then an entry that quotes it |
| UserBanWrites.UpsertIsSeenInTime | src/api/src/services/ban_service.rs:245-298 | from an upsert's write until the ban expires or another call writes, the rows ban the user, and a check that still clears does so less than the call limit plus the negative TTL after it |
| UserBanWrites.RefusalNeedsCompany | src/api/src/services/ban_service.rs:252-284 | the index refuses an upsert only if another call wrote between its lookup and its write |
| UserBanWrites.LiftLiftsItsRow | src/api/src/services/ban_service.rs:306-327 | every lift that has returned marked the row it had found as lifted, and then deleted the entry |
| UserBanWrites.LiftsNeverFail | src/api/src/services/ban_service.rs:306-322 | no lift is refused |
| UserBanWrites.LiftIsSeenInTime | src/api/src/services/ban_service.rs:300-327 | from a lift's write until the next write no row of the user is open, and a check that still refuses does so less than two call limits plus the longest positive TTL after it |
| UserBanFailures.LoneWritesStaySettled | src/api/src/services/ban_service.rs:192-327 | when writes overlap with no other call, what calls and cache hold agrees with the rows in every state, and every verdict was true when it was given |
| UserBanFailures.SoloRun | src/api/src/services/ban_service.rs:192-327 | so it is with at most one call in flight |
| UserBanFailures.LoneUpsertIsSeen | src/api/src/services/ban_service.rs:245-298 | when writes run alone, every check started after an upsert returned says banned until the ban expires or another call writes |
| UserBanFailures.LoneLiftIsSeen | src/api/src/services/ban_service.rs:300-327 | and every check started after a lift returned clears the user until another call writes |
| UserBanFailures.LateNegativeWriteClears | src/api/src/services/ban_service.rs:219-226 | a run from an empty Redis with two calls in flight, in which a check started after the upsert returned clears a user whose ban is active at every instant |
| UserBanFailures.LatePositiveWriteRefuses | src/api/src/services/ban_service.rs:203-213 | a run with two calls in flight, in which a check started after the lift returned refuses a user whom no row bans at any instant |
| UserBanFailures.BansNeedSolitude | src/api/src/services/ban_service.rs:192-298 | returned user bans are seen by all later checks, in every run, exactly when at most one call for the user is in flight at a time |
| UserBanFailures.LiftsNeedSolitude | src/api/src/services/ban_service.rs:192-327 | the same of returned user lifts |
| UserBanFailures.WritesNeedToRunAlone | src/api/src/services/ban_service.rs:192-327 | however many checks overlap, both are seen in every run exactly when writes overlap with no other call |
| HubState.TotalAfterUpdate | src/api/src/realtime/hub.rs:168-170 | replacing one user's connections changes the total by exactly the difference |
| HubState.RegisterKeepsBounds | src/api/src/realtime/hub.rs:62-77 | admitting a new connection below the per-user limit keeps every bound |
| HubState.CollectKeepsBounds | src/api/src/realtime/hub.rs:115-136 | the first phase of a fan-out keeps every buffer within its limit and no user empty |
| HubDelivery.RunIsBounded | src/api/src/realtime/hub.rs:50-165 | in every state of every interleaving, between and within fan-outs: global and per-user limits, buffer and channel sizes, empty channels while loading and nothing pending when live, no empty users (given a positive per-user limit), and an exact gauge |
| HubDelivery.EmptyEntriesNeedZeroLimit | src/api/src/realtime/hub.rs:56-66 | no user maps to an empty entry, in every run, exactly when the per-user limit is positive or the global one is zero |
| HubState.DropKeepsBounds | src/api/src/realtime/hub.rs:97-104 | removing connections keeps every bound and leaves no user with an empty entry |
| HubState.DropRemoves | src/api/src/realtime/hub.rs:97-104 | exactly the given connections of the user go, loading or live, and the user with the last of them; all others are as they were |
| HubState.FanoutReachesAll | src/api/src/realtime/hub.rs:108-165 | a fan-out with nothing in between: a loading connection buffers the payload unless its buffer is full, a live one gets it unless its channel is full or closed, one that cannot take it leaves the hub, and nobody else changes |
| HubState.MarkKeepsBounds | src/api/src/realtime/hub.rs:88-93 | going live empties the pending buffer and keeps every bound |
| RealtimeHub.Hub.CountConnections | src/api/src/realtime/hub.rs:168-170 | the sum over the users is the number of connections |
| RealtimeHub.Hub.Register | src/api/src/realtime/hub.rs:50-80 | refused exactly at the global or else the per-user limit, otherwise one new loading connection; all bounds and the gauge are kept |
| RealtimeHub.Hub.MarkBootstrapped | src/api/src/realtime/hub.rs:82-95 | hands over everything buffered since registration and leaves the connection live with nothing pending |
| RealtimeHub.Hub.Remove | src/api/src/realtime/hub.rs:97-106 | afterwards the connection is not in the hub, whether it was loading or live, its user's entry goes with the last one, the others are as they were and the gauge follows |
| RealtimeHub.Hub.CollectLoop | src/api/src/realtime/hub.rs:116-130 | loading connections buffer the payload, full ones are stale and removed, live ones are targets |
| RealtimeHub.Hub.FanoutCollect | src/api/src/realtime/hub.rs:112-138 | the whole first phase under the lock, keeping all bounds and the gauge |
| RealtimeHub.Hub.SendLoop | src/api/src/realtime/hub.rs:144-150 | exactly the live targets with room get the payload, exactly the others fail |
| RealtimeHub.Hub.Reap | src/api/src/realtime/hub.rs:152-164 | none of the failed connections is left and every other one is as it was; the gauge follows |
| RealtimeHub.Hub.Fanout | src/api/src/realtime/hub.rs:108-165 | an undisturbed fan-out: every live connection gets the payload or is dropped, every loading one buffers it or is dropped, each exactly by the room it had; other users are untouched |
| RealtimeHub.Hub.Receive | src/api/src/users/handlers.rs:857-868 | a receive takes the oldest message of the channel and nothing else |
| HubDelivery.RunKeepsInv | src/api/src/realtime/hub.rs:108-165 | in every state of every interleaving, a connection in the hub is missing nothing that is not still on its way to it |
| HubDelivery.HistoryIsDue | src/api/src/realtime/subscriber.rs:23-44 | the recorded history of a connection is the payloads fanned out to its user since it registered, in order |
| HubDelivery.ClientSeesPrefix | src/api/src/users/handlers.rs:841-868 | what a client gets after its snapshot is a prefix of those payloads: no gap, no reordering, no duplicate |
| HubDelivery.ConnectedClientMissesNothing | src/api/src/users/handlers.rs:841-868 | between fan-outs, a connected client with a drained channel has received all of them |
| HubDelivery.DropEndsStream | src/api/src/realtime/hub.rs:116-164 | a connection dropped from the hub drains what it already held and never gets anything later |
| HubDelivery.EndedStreamIsComplete | src/api/src/users/handlers.rs:857-868 | a stream that ends has yielded all the connection held when it left the hub |
| HubDelivery.UnregisterRemoves | src/api/src/realtime/hub.rs:97-106 | unregistering removes the connection, loading or live, and no other |
| HubDelivery.ReapRemoves | src/api/src/realtime/hub.rs:152-164 | the end of a fan-out removes exactly the connections that refused the payload |
| HubDelivery.RemovedForGood | src/api/src/realtime/hub.rs:97-164 | a connection unregistered or reaped is out of the hub in every later state |
| HubDelivery.OnlySlowConnectionsAreDropped | src/api/src/realtime/hub.rs:116-164 | a connection leaves the hub only when unregistered, when its buffer is full while it is loading, or when its channel was full or closed as a payload was offered |
| TokenRotation.ApplyKeepsOk | src/api/src/auth/service.rs:417-444 | every transaction keeps secrets distinct, both replacement columns set together and every link pointing to a later row |
| TokenRotation.RefreshDecides | src/api/src/auth/service.rs:351-402 | a refresh is accepted exactly when the token is stored, unexpired and never replaced or replaced under 30 s ago; reuse is detected exactly when it was replaced earlier, and wipes the rows |
| TokenRotation.ReplacementIsRecordedOnce | src/api/src/auth/service.rs:438-444 | rows keep their place, secret and expiry, and a recorded replacement is never rewritten |
| TokenRotation.AnswerFollowsHistory | src/api/src/auth/service.rs:351-446 | what a refresh answers in every run, said of the earlier operations and answers alone: issued exactly when the token was handed out, not wiped since, not expired, and not replaced 30 s ago or more by the first refresh of it that issued tokens |
| TokenRotation.ReuseIsJudgedByTheFirst | src/api/src/auth/service.rs:386-443 | with no wipe in between, a later refresh of a token is issued or detected as a reuse exactly by the time since the instant at which the first one replaced it, under 30 s or not, if the token has not expired |
| TokenRotation.RunKeepsOk | src/api/src/auth/service.rs:328-449 | the invariant holds after every run of issues, refreshes and logouts |
| TokenRotation.UnreplacedCountsChains | src/api/src/auth/service.rs:373-446 | the unreplaced rows always number the issues plus the grace-period reuses since the last wipe |
| TokenRotation.Tip | src/api/src/auth/service.rs:439-443 | following the links from any row passes only later rows and ends at an unreplaced one |
| TokenRotation.ForgottenStaysForgotten | src/api/src/auth/service.rs:420-436 | a secret handed out and no longer stored is never stored again |
| TokenRotation.WipeRevokesEverything | src/api/src/auth/service.rs:393-400 | after a logout or a detected reuse, every token handed out before is refused to that user for ever, whatever other users do |
| TokenRotation.DetectionRevokesEverything | src/api/src/auth/service.rs:386-401 | in particular after a detected reuse |
| RefreshTokens.StoreRunsAreUserRuns | src/api/src/auth/service.rs:328-457 | transactions of all users on the shared store look to each user like a run of its own, so the run theorems hold of the store |
| RefreshTokens.StoreConservesChains | src/api/src/auth/service.rs:373-446 | in every run of the store, each user's unreplaced rows number its issues and forks since its last wipe |
| RefreshTokens.StoreAnswersFollowHistory | src/api/src/auth/service.rs:328-446 | in every run of the store a refresh answers as the history of its user says |
| RefreshTokens.AuthStore.IssueTokens | src/api/src/auth/service.rs:140-162 | a login adds one fresh unreplaced row to its user, expiring one lifetime after it, and touches no other user |
| RefreshTokens.AuthStore.Match | src/api/src/auth/service.rs:351-370 | the loop stops at the first unexpired row with the secret, and the transaction's copy loses exactly the expired ones before it |
| RefreshTokens.AuthStore.MatchOne | src/api/src/auth/service.rs:351-370 | with distinct secrets it decides about the one row with the secret, and deletes nothing when that is unexpired |
| RefreshTokens.AuthStore.Replace | src/api/src/auth/service.rs:425-444 | the successor is inserted with its own expiry; the token is linked to it and marked replaced at the instant read for that, unless it was replaced before; no other row changes |
| RefreshTokens.AuthStore.Rotate | src/api/src/auth/service.rs:342-448 | the statements of a refresh commit exactly the rows and the answer of the rotation rules |
| RefreshTokens.AuthStore.Refresh | src/api/src/auth/service.rs:328-449 | a refresh changes its user's rows as the rules say, or not at all when it is invalid or expired, and no other user's |
| RefreshTokens.AuthStore.LogoutAll | src/api/src/auth/service.rs:451-457 | afterwards a refresh by that user is refused whatever the token, and no other user's rows have changed |
| SignupLock.Signup.AwaitResult | src/api/src/auth/handlers.rs:778-788 | polling repeats a result that appears and is refused only after a full second without one |
| SignupLock.RefusedAfterEightPolls | src/api/src/auth/handlers.rs:778-788 | in every run, a call that found the lock taken is refused only after it has looked for a result eight times and seen none |
| SignupLock.Signup.CompleteLocked | src/api/src/auth/handlers.rs:790-878 | while time passes but nobody interferes, the holder repeats a stored result, and otherwise registers, stores the result and spends the ticket together or not at all |
| SignupLock.Signup.Complete | src/api/src/auth/handlers.rs:753-895 | a call waits only if the lock was taken; otherwise, however long it takes, it settles once and leaves no live lock |
| SignupLock.UndisturbedCallSettles | src/api/src/auth/handlers.rs:753-895 | the state machine's steps of one call among which only time passes settle in the same way |
| SignupLock.LeaseIsRespected | src/api/src/auth/handlers.rs:880-892 | however long calls take, a lock whose lease still runs is deleted by nobody but its owner |
| SignupLock.OneLease | src/api/src/auth/handlers.rs:762-776 | at most one call at a time holds a running lease |
| SignupLock.TicketRegistersOnce | src/api/src/auth/handlers.rs:790-878 | if holders finish within the lease, a ticket registers at most once under any interleaving |
| SignupLock.SuccessesAgree | src/api/src/auth/handlers.rs:753-795 | and all successful answers for a ticket are the same |
| SignupLock.OnceNeedsTheLease | src/api/src/auth/handlers.rs:762-892 | at most one registration in every run exactly when holders finish before the lock's 15 s |
| SignupLock.AgreementNeedsTheLease | src/api/src/auth/handlers.rs:753-895 | all successful answers for a ticket agree, in every run, under the same condition and no other |
| SendTickets.SendTicket.Redeem | src/api/src/videos/handlers.rs:2483-2552 | a redemption that runs alone is granted exactly for an active, unexpired ticket of a shown video with a media URL, and leaves the ticket redeemed, expired or as it was |
| SendTickets.SendTicket.Claim | src/api/src/videos/handlers.rs:2528-2542 | a successful claim is before the expiry and recorded, and after it the ticket can be claimed at no instant and no longer expires; a failed one changes nothing |
| SendTickets.RunKeepsInv | src/api/src/videos/handlers.rs:2483-2552 | in every interleaving the ticket is redeemed exactly when some call took it, and one call at most did |
| SendTickets.GrantedAtMostOnce | src/api/src/videos/handlers.rs:2528-2548 | a ticket is granted at most once, to a call whose clock reading is the recorded one and before the expiry |
| SendTickets.SpentStaysSpent | src/api/src/videos/handlers.rs:2508-2542 | a redeemed or expired ticket never changes again |
| SendTickets.FinalStates | src/api/src/videos/handlers.rs:2508-2542 | a redemption time is recorded exactly when redeemed and is before the expiry; expired means the clock has reached the expiry |
| SendTickets.RefusalHasACause | src/api/src/videos/handlers.rs:2502-2548 | a call refused as already redeemed or no longer valid lost to another call or to the expiry |
| SendTickets.FailureWasTold | src/api/src/videos/handlers.rs:2518-2552 | a call is told that the video is missing, or that there is no URL, only if that is what it met |
| RedisLimiter.RateLimiter.CheckAndIncrement | src/api/src/services/rate_limiter.rs:87-120 | a lone caller is refused exactly at the limit, counts itself once, never underflows, and sets the TTL of a key it creates |
| RedisLimiter.RateLimiter.IncrementBy | src/api/src/services/rate_limiter.rs:61-84 | a plain increment adds its amount, or starts over if the key expired, and sets the TTL when it looks like a creation |
| RedisLimiter.CounterOvershootsByOthers | src/api/src/services/rate_limiter.rs:97-113 | with N callers in flight and the key vanishing at any moment, the counter never exceeds the limit plus N - 1, and no caller subtracts more than that |
| RedisLimiter.CounterAddsUp | src/api/src/services/rate_limiter.rs:61-120 | in every run the counter is the sum of the increments since the key last vanished |
| RedisLimiter.RefusedAtTheLimit | src/api/src/services/rate_limiter.rs:97-106 | in every run a check is refused only if it read a counter at the limit or above |
| RedisLimiter.UnderflowNeedsCompany | src/api/src/services/rate_limiter.rs:107-113 | the unsigned subtraction never underflows in any run exactly when at most one call is in flight |
| RedisLimiter.TwoCallersUnderflow | src/api/src/services/rate_limiter.rs:100-113 | for every limit there is a run of two callers in which it does |
| RedisLimiter.KeyWithoutTtlIsAttended | src/api/src/services/rate_limiter.rs:68-75 | if only TTLs remove the key and amounts are positive, a key without a TTL has exactly one call between its INCR and its EXPIRE, and otherwise there is none |
| RedisLimiter.AttendanceNeedsPositiveAmounts | src/api/src/services/rate_limiter.rs:68-75 | that holds in every run exactly when no plain increment is by zero |
| OtcLimiter.RateLimiter.CheckRateLimit | src/api/src/middleware/rate_limit.rs:23-42 | the entry is created, restarted or counted and the verdict given exactly as the limit says, with the other keys untouched |
| OtcLimiter.RateLimiter.Cleanup | src/api/src/middleware/rate_limit.rs:45-49 | forgets exactly the entries two windows old, so that for a positive window no check of any key, now or later, decides differently |
| OtcLimiter.SameVerdicts | src/api/src/middleware/rate_limit.rs:23-49 | for a positive window, cleanups anywhere in a run change no verdict |
| OtcLimiter.CleanupIsInvisible | src/api/src/middleware/rate_limit.rs:23-49 | cleanups are invisible in every run exactly when the window is positive or nothing is allowed anyway |
| OtcLimiter.AllowedWithinBudget | src/api/src/middleware/rate_limit.rs:27-41 | what an interval can still allow is bounded by what is left of the current window and one more |
| OtcLimiter.RateIsBounded | src/api/src/middleware/rate_limit.rs:27-49 | in every run with cleanups anywhere, any closed interval of the window's length holds at most twice the limit of accepted calls per key, exactly when the window is positive or nothing is allowed anyway |
| OtcLimiter.CountIsAllowed | src/api/src/middleware/rate_limit.rs:23-42 | the count of an entry is no more than the checks of its key allowed since its window began |
| OtcLimiter.RefusedOnlyWhenUsedUp | src/api/src/middleware/rate_limit.rs:27-41 | in every run with cleanups anywhere, a check is refused only if as many checks of its key as the limit were allowed in the closed window that ends with it, whatever was refused meanwhile |
| ReportReasons.NormalizeReasonCodes | src/api/src/services/abuse_report_service.rs:118-145 | accepts exactly nonempty, not too long lists of allowed codes, lists each code once in order, and complains about the first code that is not allowed |
| ReportReasons.SameCodesSameList | src/api/src/services/abuse_report_service.rs:130-144 | the normal form depends only on the set of codes |
| ReportReasons.NormalIsStable | src/api/src/services/abuse_report_service.rs:134 | normalizing a normalized code changes nothing |
| ReportReasons.NormalIsUpperCore | src/api/src/services/abuse_report_service.rs:134 | the normal form is what stands between the surrounding blanks, with ASCII letters in upper case |
| ReportReasons.BeforeIsLexicographic | src/api/src/services/abuse_report_service.rs:130-144 | codes are listed in lexicographic order |
| ReportReasons.ScoreDecides | src/api/src/services/abuse_report_service.rs:147-176 | codes are severe exactly from score 75 and immediate exactly from score 100, so immediate implies severe |
| ModerationState.RunKeepsInv | src/shared/migration/src/m20260220_000002_create_abuse_reports_and_video_moderation.rs:142-144 | after any run of transactions there is at most one open report per video and reporter, and statuses, rules, scores and foreign keys are consistent |
| ModerationState.ClosedStaysClosed | src/api/src/admin/handlers.rs:2420-2434 | a closed report is never altered until it is deleted |
| ModerationState.RemovedStaysRemoved | src/api/src/services/abuse_report_service.rs:201-203 | a removed video stays removed and cannot be reported until an admin acts on it |
| ModerationState.OnlyRestoreShows | src/api/src/services/abuse_report_service.rs:348-352 | a hidden video that is visible again was restored in between, or erased and published anew |
| ModerationState.OnlyModerationChangesVideo | src/api/src/services/abuse_report_service.rs:329-392 | a video's moderation changes only by an action on that video, an automatic quarantine of it, or the deletion of the report it quotes |
| ModerationState.DistinctReportersAreReports | src/api/src/services/abuse_report_service.rs:263-277 | the count of distinct reporters is the number of open reports in the window |
| ModerationState.SubmitDecides | src/api/src/services/abuse_report_service.rs:256-284 | the rule is the immediate one exactly from score 100 with the rules on, and the reporters one exactly from score 75 to below 100 with at least max(threshold, 1) open reports on the video made at most max(window, 1) seconds before the transaction, its own included if it is |
| ModerationState.SubmitTouchesItsOwn | src/api/src/services/abuse_report_service.rs:206-311 | a submission leaves exactly one open report of its reporter, touches no other report or video, and leaves its video quarantined on account of that report or unchanged |
| AbuseReports.AbuseReportService.SubmitOrUpdateReport | src/api/src/services/abuse_report_service.rs:178-327 | refused as not found exactly when the video is missing, not listed, deleted or removed, and then nothing changes; otherwise the tables and the rule are those of a submission |
| AbuseReports.AbuseReportService.File | src/api/src/services/abuse_report_service.rs:206-254 | updates the reporter's open report or inserts a new one |
| AbuseReports.AbuseReportService.DecideRule | src/api/src/services/abuse_report_service.rs:256-284 | with the rules on, score 100 quarantines at once, score 75 if at least max(threshold, 1) open reports on the video are at most max(window, 1) seconds old at the transaction, anything else never |
| AbuseReports.AbuseReportService.ApplyModeration | src/api/src/services/abuse_report_service.rs:329-392 | not found for a missing or deleted video; otherwise the row is moderated, or left alone when nothing differs |
| AbuseReports.AbuseReportService.ModerateVideo | src/api/src/admin/handlers.rs:2474-2494 | an admin's action is one such step, refused when its source does not exist |
| AbuseReports.AbuseReportService.ResolveReport | src/api/src/admin/handlers.rs:2399-2434 | closes an open report with the status and time given, answers a closed one as it is, changes no other |
| BulkDownload.ValidateVideos | src/api/src/videos/handlers.rs:1439-1554 | accepts exactly one to ten distinct, available videos; a refused list names the ids without a row |
| BulkDownload.BuildManifest | src/worker/src/bulk_download.rs:147-209 | each request is recorded in its list, in request order, and there are files exactly when some request was fetched |
| BulkDownload.EveryRequestIsRecorded | src/worker/src/bulk_download.rs:173-208 | every requested id is in one of the lists |
| BulkDownload.RequestsAreRecordedOnce | src/worker/src/bulk_download.rs:173-208 | with distinct requests no id is in both lists or twice in one |
| BulkDownload.ZipNamesDiffer | src/worker/src/bulk_download.rs:290-299 | the entries of the zip, the manifest's included, have different names |
| BulkDownload.CreateZip | src/worker/src/bulk_download.rs:279-304 | the entries are the manifest and then the successful videos in order |
| BulkDownload.PackedIffFetched | src/worker/src/bulk_download.rs:173-208 | a video is packed exactly when its row is published and not deleted and the download of a request for it succeeded |
| BulkDownload.HiddenStaysOut | src/worker/src/bulk_download.rs:149-158 | whatever downloads succeed, no attempt packs a hidden video exactly when every hidden video requested is also unpublished or deleted in the rows it reads |
| BulkDownload.HiddenIsPacked | src/worker/src/bulk_download.rs:149-154 | a video accepted while visible and hidden afterwards is packed by an attempt that completes the job |
| BulkDownload.Job.ProcessJob | src/worker/src/bulk_download.rs:147-267 | an attempt completes the job exactly when it is stored with at least one video |
| BulkDownload.Job.ProcessWithRetries | src/worker/src/bulk_download.rs:110-144 | stops at the first success, makes at most the retries left, records the retry count and sleeps the sum of the doubling waits |
| BulkDownload.Job.ProcessNext | src/worker/src/bulk_download.rs:61-107 | the job ends completed exactly when one of the attempts left succeeds, and failed otherwise |
| Likes.CountIsLikesPlusLost | src/api/src/videos/handlers.rs:933-1008 | after any run the counter is the like rows plus the likes dropped with deleted accounts |
| Likes.LikesOfAfter | src/shared/migration/src/m20260128_171917_m20220101_000003_create_likes_table.rs:22-41 | what each transaction, a deletion's cascade included, does to a video's like rows |
| Likes.DeletionTakesItsOwn | src/worker/src/account_cleanup.rs:86 | deleting an account takes its videos, its likes and the likes its videos received, and nothing of anyone else |
| Likes.UnlikeDecrements | src/api/src/videos/handlers.rs:998-1008 | the ELSE 0 arm of the decrement is never taken |
| Likes.SwitchesAreIdempotent | src/api/src/videos/handlers.rs:953-1020 | repeating a like or an unlike changes nothing, and an unlike takes back what a first like did |
| Likes.LikeStore.SetLike | src/api/src/videos/handlers.rs:933-982 | one like transaction; the answer is the counter after it |
| Likes.LikeStore.UnsetLike | src/api/src/videos/handlers.rs:984-1020 | one unlike transaction; the answer is the counter after it |
| WorkerRetry.Worker.Attempts | src/worker/src/main.rs:153-200 | the attempts made, the error left over, the time slept and whether a backoff overflows |
| WorkerRetry.Worker.RunJob | src/worker/src/main.rs:152-235 | between one attempt and the maximum, backoffs summing to base * (2^(k-1) - 1), and the final status |
| WorkerRetry.WaitedIsGeometric | src/worker/src/main.rs:171-184 | the sum of the backoffs in closed form |
| WorkerRetry.FailedIffFirstErrs | src/worker/src/main.rs:202-213 | FAILED is written exactly when the first attempt errs |
| WorkerRetry.SuccessAfterErrorIsFailed | src/worker/src/main.rs:154-213 | a transient error followed by success ends FAILED |
| WorkerRetry.CommentHolds | src/worker/src/main.rs:202-213 | of one job the comment holds exactly when at most one attempt was made or the last one made errs |
| WorkerRetry.CommentNeedsOneAttempt | src/worker/src/main.rs:202-213 | and for every job exactly when at most one attempt is configured |
| WorkerRetry.BackoffFits | src/worker/src/main.rs:171-172 | no backoff overflows 64 bits in any job exactly when the longest configured one fits |

## Left out

- RealtimeHub.Hub.Fanout: states the outcome of a fan-out that nothing interrupts; what other calls do between its phases is covered by the runs of `HubDelivery`.
- Redis and database failures, and the fail-open or fail-closed branches that answer them: each is one branch.
- The bypass flag of the Redis limiter, its read-only check and its key names.
- The two rate limits, the username rules and the audit records that precede a signup, and a registration that fails half-way: only registrations that return tokens are counted.
- Access tokens, their revocation list, hashing and PKCE: a refresh token is its secret.
- Concurrent refreshes of one user: the code takes no lock, and the rotation claims are per transaction.
- Heartbeats, token expiry and pongs of a WebSocket: they are a consumer that stops at any moment.
- Reconnection of the subscriber: payloads published meanwhile never reach the hub.
- Feed, profile and search caches: several writers do not invalidate them, so no exact agreement holds.
- Text columns that no decision reads: ban reasons and actors, report details, client addresses, resolution notes.
- The columns ip_family and cidr_prefix are functions of the target, and the parsing of addresses and networks is not part of this model.
- The deletion of ban rows with their user's account.
- The database's rounding of timestamps to microseconds.
- Wrap-around of 64-bit counters, apart from the worker's backoff and the limiter's subtraction.
- Editing or deleting single rows through the admin's table browser.
- The job and daily limits and the idempotency key of bulk downloads, and FAILED as a final state of a job: a stale job marked failed can still be taken from the queue and completed.
- Foreign calls (object storage, zip, ffmpeg, OAuth): their success or failure is a parameter.
- Page cursors of report lists.
- Send tickets of other users, and tickets deleted with their user or video: both answer not found.
- Eviction of a live signup lock or, for the TTL claim, of a rate-limit key by memory pressure.
