# Ride dispatch backend: a verified model

A Dafny model of the stateful parts of the ride-sharing backend and of the arithmetic they rest on,
with proofs about every run. `dafny verify dfyconfig.toml` checks the whole project.

Each component has the same shape. A value-level step machine (`State`, `Event`, a total `Step`) says
what one atomic action does; a run is any sequence of events, so every theorem about runs covers every
interleaving. Classes hold the code's own fields and do what the code does step by step, and each
method's contract equates its effect with `Step` (or with a run of it, when other parties act between
two of its statements). Then theorems are proved about runs.

| file | what it models |
|---|---|
| `Runs.dfy`, `Common.dfy` | folding a step function over events; options, results, a little arithmetic |
| `Fsm.dfy`, `Rides.dfy` | the transition table; rides table, request calls in progress, and the dispatch steps |
| `RideService.dfy` | the ride repository and service as classes over that table |
| `RideTheorems.dfy`, `RideScenarios.dfy` | what every run of the dispatch protocol keeps; concrete runs showing what it does not |
| `Pricing.dfy` | surge multiplier, fare, and storage in a `NUMERIC(10,2)` column |
| `DistLock.dfy` | the Redis lock: SETNX with a time to live, compare-and-delete, the retry loop |
| `RateLimiter.dfy`, `Lockout.dfy` | the per-user limiter and the login lockout, with their sweeps |
| `Hub.dfy` | the WebSocket hub's event loop, its clients' queues and the write pumps |
| `Payment.dfy` | charging with a gateway and a table that may fail |
| `Location.dfy` | the geo cache, the location log, and the nearby query over both |
| `Pagination.dfy` | page parameters, page metadata, reading page by page |

## How the runs are read

- A transaction body, and a statement outside a transaction, is one atomic event. A fault (`ReadFails`,
  `WriteFails`) leaves the store as it was.
- `NOW()` in a transaction is the time the transaction began, which may be before the event takes effect,
  because the row lock can make it wait. `Accept` and `Complete` carry that time.
- An update of a driver's position is two events, the cache write and the insert, and a nearby search asks the
  cache and then, if it must, the log as it is by then. A request for a ride counts drivers and searches for one
  in the location stores, which updates change between its statements as other calls change the rides.
- Identifiers that the store or the gateway chooses, clock readings, distances and the answers of Redis,
  PostgreSQL and the gateway are parameters, so the theorems hold for all of them.
- `Repository.Create` in `RideService` refuses an id already in the table, as the primary key does.
- The answers of GEOSEARCH and of `find_nearby_drivers` are any answers that fit their documented meaning
  (`IsGeoSearch`, `IsNearbyQuery`); ties may be broken either way. One distance function serves both.
- The WebSocket handler makes a fresh client for each connection and registers it once, so the theorems on the
  hub assume `RegistersOnce`; `RegisteringTwicePanics` shows why the hub needs it.

## Where the code and its descriptions disagree

The model follows the code. Each item has a concrete run and, where a property is at stake, the exact
condition under which it holds.

- `cancelled` is described as terminal. The match write has no status guard, so a ride cancelled between
  its insert and its match write becomes matched (`CancelledRideIsMatched`); this is the only way out
  (`CancelledIsLeftOnlyByItsMatchWrite`), and is closed once no match write is pending.
- "You already have an active ride" is checked before the insert and not again. Overlapping requests of one
  rider leave two (`OverlappingRequestsGiveTwoRides`); `OneCurrentRideExactly` says exactly when.
- The matching lock is described as preventing double matching. Nothing marks a driver busy
  (`DriverIsMatchedTwice`), and the lock can be held by two clients once the first has outlived its time to
  live (`LockIsHeldTwice`). `OneRidePerDriverExactly` says exactly when a driver is on one ride. Two critical
  sections overlap somewhere in a run exactly when somewhere the lock is asked for while a holder is inside past
  its time to live (`ExclusionFailsExactly`).
- `ended_at` can precede `started_at` (`EndedBeforeStarted`). A ride's times are in order exactly when no
  transaction that wrote one began before the time it follows (`TimesInOrderExactly`).
- The per-user limiter is described as a sliding window and is a fixed one
  (`MoreThanTheLimitInASlidingWindow`). It keeps its limit in every stretch of one window exactly when the limit
  is at most one or the window is empty (`SlidingLimitExactly`); what it does keep is sharp
  (`AtMostOneExtraWindow`, `TheBoundIsReached`).
- The lockout does not look at the lock when it records a failure, so logins that overlap extend it
  (`ConcurrentLoginsExtendTheLock`). It follows the history of failures and successes throughout exactly when one
  failure is enough to lock or none is recorded while the lock is set (`AgreesExactly`); logins that do not
  overlap never do that (`LockoutRefinesHistory`).
- Charging is described as idempotent. Money is taken once for each call that failed to read or found nothing
  and whose intent and capture succeeded, so at most once exactly when there is at most one such call
  (`ChargedExactly`). A second charge has one of three causes (`SecondChargeHasACause`), each with a run: its
  read failed (`FailedReadChargesTwice`), the earlier call was under way (`OverlappingCallsChargeTwice`), or had
  lost its row (`LostInsertChargesTwice`).
- The cache is described as the fast path to the positions the log keeps. An update writes one and then the
  other, so the two disagree between the statements (`HalfAnUpdateDisagrees`) and after two updates of one
  driver have crossed (`CrossingUpdatesDisagree`). They find a driver alike in every search exactly when the
  cache holds the newest position (`FindAlikeExactly`), and it does exactly when the last cache write and the
  newest row carry one position, as they do when one update made both (`HoldsNewestExactly`). A driver who sends
  updates in turn is found alike by both, whatever other drivers do (`CacheAgainstLog`).
- A client with a full buffer is described as being disconnected. The hub instead sends on the unbuffered
  channel only it receives from, and stops for good (`StuckExactly`, `StuckStays`): one connection that reads
  nothing stops it with its 257th message (`SlowClientStopsTheHub`). `StuckByHistory` says which runs stop it;
  clients that read each message before the next one comes never do (`KeepingUpKeepsTheHubGoing`).
- The surge comment speaks of rounding to the nearest tenth; the value is cut off (`SurgeIsCutOff`). The two are
  the same exactly when the ratio of requests to drivers is not used as it is or its cut-off part is below half a
  tenth (`SurgeIsNearestTenthExactly`). A threshold of 20 requests for full surge is configured and never read
  (`NoSurgeWhenDriversMatchRequests`).
- `find_nearby_drivers` filters by distance before it picks the newest row, so it finds drivers who have left
  (`LogFindsADriverWhoLeft`).
- The repository's README announces lockout after 5 failures; the service is built with 1000. The model
  leaves the number open.

## Model

| member | source | states |
|---|---|---|
| Fsm.TransitionsExactly | internal/ride/fsm.go:10-25 | the table allows exactly one step forward at a time, and cancelling from any active status |
| RideTheorems.EveryStatusChange | internal/ride/fsm.go:18-25 | in every run each change of a ride's status is an edge of the table, or the one cancelled-to-matched edge made by that ride's own pending match write |
| RideTheorems.StatusIsEnteredExactly | internal/ride/service.go:193-314 | a ride enters enroute, completed, cancelled or matched exactly by a committed event of the assigned driver, of its rider or driver, or of its pending match; its timestamps are those transactions' own |
| RideTheorems.RidesStartRequested | internal/ride/service.go:94-109 | a ride appears exactly by the committed insert of a call whose check passed, without a driver, at the quoted fare |
| RideTheorems.AtMostOneMatchWrite | internal/ride/service.go:162-169 | over a whole run a ride gets at most one match write, finds itself in requested or cancelled then, and keeps that driver |
| RideTheorems.CompletedIsAbsorbing | internal/ride/fsm.go:23 | once completed, a row never changes in any continuation |
| RideTheorems.CancelledIsLeftOnlyByItsMatchWrite | internal/ride/repository.go:112-115 | a cancelled ride changes status at an event if and only if the event is its own match write |
| RideTheorems.CancelledIsAbsorbingWithoutPendingMatch | internal/ride/service.go:285-314 | with no match write pending a cancelled row never changes again |
| RideTheorems.StatusChangesAreBounded | internal/ride/fsm.go:18-25 | no run changes a ride's status more than four times |
| RideTheorems.RowHistory | internal/ride/repository.go:109-143 | over any stretch of a run rider, creation time, and once set driver, start and end stay; a match write stops pending for good |
| RideTheorems.RowShape | internal/ride/repository.go:109-143 | in every reachable state matched, enroute and completed rides have a driver, the last two a start, and exactly completed ones an end |
| RideTheorems.OneCurrentRidePerRider | internal/ride/service.go:72-78 | if one rider's requests do not overlap, that rider has at most one requested, matched or enroute ride in every state, whatever cancels, matches and other riders do |
| RideTheorems.OneCurrentRideExactly | internal/ride/service.go:72-114 | for any run, at most one throughout if and only if no insert and no match write to a cancelled ride commits while the rider has a current ride |
| RideTheorems.OneRidePerDriverExactly | internal/ride/service.go:128-172 | for any run, a driver is on at most one ride throughout if and only if no match write commits for a busy driver |
| RideTheorems.TimesInOrderExactly | internal/ride/repository.go:129-143 | after any run created, started and ended are in order if and only if each transaction that wrote a timestamp began no earlier than the one before |
| RideTheorems.PromptTransactionsKeepTimesInOrder | internal/ride/repository.go:129-143 | when no transaction waits for its row the timestamps are in order |
| RideTheorems.FareIsTheQuote | internal/ride/service.go:260 | in every later state of every run a ride's fare is the fare quoted at its insert, through storage and the rewrite at completion |
| Rides.CurrentExactly | internal/ride/repository.go:161-169 | the rides a rider has under way are the requested, matched and enroute ones, those that may still be cancelled |
| RideScenarios.CancelledRideIsMatched | internal/ride/service.go:162-169 | a four-event run from cancelled to matched |
| RideScenarios.OverlappingRequestsGiveTwoRides | internal/ride/service.go:72-107 | a run in which two overlapping requests leave one rider two current rides |
| RideScenarios.DriverIsMatchedTwice | internal/ride/service.go:160-172 | a run without any overlapping requests in which two riders get the same driver |
| RideScenarios.EndedBeforeStarted | internal/ride/repository.go:129-143 | a run whose completed ride ends before it starts |
| RideService.Service.RequestRide | internal/ride/service.go:64-126 | with arbitrary events of others and updates of drivers between its statements, the call is a run of check, insert and match write or giving up; it succeeds exactly when the check finds no current ride and the insert commits, and conflicts exactly when the check finds one; a driver is reported, and the row matched with that driver, exactly when the lock is obtained, a source answers with one and the write commits; that driver is the nearest found within 10 km; the fare is quoted at the surge for the drivers counted |
| RideService.Service.CalculateSurge | internal/ride/service.go:83-86 | the multiplier for as many drivers as the cache's answer has well-formed names; 3.0 if it fails and there are requests, and from 60 requests whatever it answers |
| RideService.Service.MatchDriver | internal/ride/service.go:130-184 | a driver is assigned exactly when the lock is obtained, the cache answers with a well-formed name or else the log with a row, and the write commits; it is the first of that answer and the nearest in that source, and is written without a look at the status; otherwise the table stays |
| RideService.PickExactly | internal/ride/service.go:149-160 | which attempts find a driver, and which driver |
| RideService.Service.AcceptRide | internal/ride/service.go:188-231 | succeeds exactly for the assigned driver of a ride that may go enroute, with the right error otherwise, and is then one step; a failed body leaves the table alone |
| RideService.Service.CompleteRide | internal/ride/service.go:235-276 | the same for completion, rewriting the fare it read |
| RideService.Service.CancelRide | internal/ride/service.go:280-324 | the same for cancellation by rider or assigned driver |
| RideService.Repository.Create | internal/ride/repository.go:46-60 | inserts a requested row with the stored fare, or fails and leaves the table alone |
| RideService.Repository.GetActiveByRider | internal/ride/repository.go:161-182 | finds the rider's latest requested, matched or enroute ride exactly when there is one |
| RideService.Repository.UpdateStatus | internal/ride/repository.go:109-126 | no row comes or goes, no other row changes, and of this one only the status, and the driver when one is given |
| RideService.Repository.SetStarted | internal/ride/repository.go:129-135 | only this row changes, to enroute and started at the transaction's time; rider, driver, fare, creation and end stay |
| RideService.Repository.SetCompleted | internal/ride/repository.go:138-144 | only this row changes, to completed and ended at the transaction's time, with the fare to half a cent; rider, driver, creation and start stay |
| Pricing.SurgeIsClampedQuotient | internal/ride/surge.go:32-62 | the float formula with the default settings is the integer quotient 10r/d clamped to 10..30 tenths, 10 up to the threshold, and by demand alone without drivers |
| Pricing.SurgeIsNearestTenthExactly | internal/ride/surge.go:60-61 | the multiplier is the nearest tenth, as its comment says, if and only if it is clamped, or there are no drivers or at most 5 requests, or the part of a tenth cut off is below one half |
| Pricing.SurgeIsCutOff | internal/ride/surge.go:60-61 | eleven requests for eight drivers give 1.3, where 1.4 is nearest |
| Pricing.SurgeMonotone | internal/ride/surge.go:32-62 | surge does not fall with more requests or fewer drivers, branches included |
| Pricing.SixtyRequestsAlwaysSurgeFully | internal/location/location.go:122 | with at most 20 drivers counted, 60 requests always give 3.0 |
| Pricing.NoSurgeWhenDriversMatchRequests | internal/ride/surge.go:14-28 | with as many drivers as requests there is no surge, however many |
| Pricing.QuotedFareMonotone | pkg/geo/geo.go:43-50 | the rounded fare does not fall with distance or requests and does not rise with drivers |
| Pricing.QuotedFareBounds | pkg/geo/geo.go:43-50 | the fare is at least 3.50 and within half a cent of 3.50 plus 15 cents per kilometre and tenth of surge |
| Pricing.StoringAFareIsTheIdentity | migrations/003_create_rides.up.sql:13 | a fare survives NUMERIC(10,2) unchanged |
| Pricing.EveryFareFits | migrations/003_create_rides.up.sql:13 | every fare for up to 20040 km fits the column, whatever the surge |
| DistLock.LeaseIsStored | pkg/redis/redis.go:50-72 | until it is released with its own token or runs out, an acquisition is what the key holds, whatever all clients do |
| DistLock.StoredIsALease | pkg/redis/redis.go:50-72 | whatever a live key holds goes back to an unreleased, unexpired acquisition |
| DistLock.AcquiresExactlyWhenNoLease | pkg/redis/redis.go:50-56 | SETNX succeeds if and only if no earlier acquisition is unreleased and unexpired |
| DistLock.OverlapMeansExpired | pkg/redis/redis.go:30-47 | if a client acquires inside an earlier holder's critical section, the lock has a time to live and that section has lasted all of it |
| DistLock.ExclusionFailsExactly | pkg/redis/redis.go:30-56 | for any run, two acquisitions of a key overlap somewhere if and only if somewhere the key is asked for, granted or not, while an earlier holder is unreleased and past its time to live |
| DistLock.OneLease | pkg/redis/redis.go:30-31 | at no time are there two leases on a key |
| DistLock.LateReleaseIsHarmless | pkg/redis/redis.go:58-72 | a release, however late, leaves every lease but its own in force |
| DistLock.LockIsHeldTwice | internal/ride/service.go:138-146 | a run with two clients inside the section, the first past its five seconds |
| DistLock.RetryExactly | pkg/redis/redis.go:75-92 | the answer is true if and only if some attempt works and finds the key free while every earlier one worked, found it taken and had time left; false if and only if all attempts worked, found it taken and had time left |
| DistLock.RetryAnswers | pkg/redis/redis.go:75-92 | at most maxRetries attempts; true leaves the caller's token with a fresh time to live; false means all were made; an error is that of the last attempt |
| DistLock.RetryIsARun | pkg/redis/redis.go:75-92 | with arbitrary interference the loop is a run of the store in which at most its successful SETNX takes effect, on a free key |
| DistLock.Lock.AcquireWithRetry | pkg/redis/redis.go:75-92 | the loop takes the key at the first attempt that finds it free, and answers false only if every attempt found it taken |
| DistLock.Lock.Acquire | pkg/redis/redis.go:50-56 | one SETNX step, true exactly on a free key; a time to live of 0 sets no expiry |
| DistLock.Lock.Release | pkg/redis/redis.go:58-72 | one compare-and-delete step, or an error and no effect |
| DistLock.Store.CompareAndDelete | pkg/redis/redis.go:60-67 | the script deletes the key exactly when it still holds the token |
| RateLimiter.OnlyOwnRequestsMatter | pkg/security/security.go:160-199 | under any interleaving with sweeps and other users a request is answered as by a limiter that served its user alone and never swept |
| RateLimiter.AtMostOneExtraWindow | pkg/security/security.go:160-172 | from any moment on, within k windows at most one less than k+1 times the limit gets through, or the limit within none |
| RateLimiter.TheBoundIsReached | pkg/security/security.go:160-172 | for every limit and window, and as many windows as a window has instants, a run that lets as many through |
| RateLimiter.DenialsAreEarned | pkg/security/security.go:161-172 | a denied request has exactly the limit let through since some moment at most one window earlier |
| RateLimiter.BelowTheLimitIsNeverDenied | pkg/security/security.go:161-172 | a user below the limit over the last window length is let through |
| RateLimiter.MoreThanTheLimitInASlidingWindow | pkg/security/security.go:120-121 | three requests let through within a window length under a limit of two |
| RateLimiter.SlidingLimitExactly | pkg/security/security.go:120-172 | over all runs, users and moments, at most the limit gets through within one window length if and only if the limit is at most one or the window is empty |
| RateLimiter.UserRateLimiter.Middleware | pkg/security/security.go:149-187 | one counting step and its answer; no user, no limit |
| RateLimiter.UserRateLimiter.Cleanup | pkg/security/security.go:189-202 | exactly the windows that are over are removed, and no other changes |
| Lockout.AgreesExactly | pkg/security/security.go:43-78 | in any run, logins overlapping or not, the email is locked exactly as its history says after every event and at every later time, if and only if one failure is enough to lock or no failure is recorded under a lock that is set |
| Lockout.LockoutRefinesHistory | pkg/security/security.go:43-78 | for every disciplined run an email is locked exactly when its failures since the last success are a positive multiple of the threshold and the latest is within the lock duration; a failure locks exactly when it completes such a multiple |
| Lockout.DisciplinedIsClean | internal/auth/service.go:143-160 | logins that do not overlap never record a failure under a lock |
| Lockout.SweepsAreInvisible | pkg/security/security.go:103-115 | taking all sweeps out of a disciplined run changes no answer to a check or a failure |
| Lockout.SweepIsVisibleExactly | pkg/security/security.go:62-78 | without the discipline, in any reachable table a sweep changes a failure's answer if and only if the lock had expired by then and one failure is not enough to lock; a check never notices |
| Lockout.SweepIsSeen | pkg/security/security.go:62-78 | two failures, the lock's end and a sweep: the next failure does not lock, and without the sweep it would |
| Lockout.ConcurrentLoginsExtendTheLock | internal/auth/service.go:143-160 | three concurrent logins after which the code and the history disagree |
| Lockout.Login | internal/auth/service.go:136-177 | one check and at most one record, with anything in between: a wrong password and an unknown user add one failure and lock from the limit on, a match leaves no entry, a failed lookup changes nothing, a locked email changes nothing; extends a disciplined run to a disciplined run when what others do in between is disciplined |
| Lockout.LoginCounts | internal/auth/service.go:147-163 | what each outcome of a login does to the failures in the history |
| Lockout.LoginAttemptTracker.IsLocked | pkg/security/security.go:43-59 | the answer and the lazy removal of an expired lock |
| Lockout.LoginAttemptTracker.RecordFailure | pkg/security/security.go:62-78 | one more failure, locking from the threshold on |
| Lockout.LoginAttemptTracker.RecordSuccess | pkg/security/security.go:81-85 | forgets the email |
| Lockout.RemainingFailuresLock | pkg/security/security.go:88-101 | in any table, among failures that follow, one locks exactly from the one on that uses up the remaining attempts |
| Lockout.RemainingFollowsHistory | pkg/security/security.go:88-101 | without failures under a lock: the failures missing to the next multiple of the limit, none while locked, and none or all as an expired lock still stands or not |
| Lockout.LoginAttemptTracker.Cleanup | pkg/security/security.go:103-116 | exactly the emails whose lock has run out are removed, and no other entry changes |
| Hub.NeverPanics | internal/notification/hub.go:63-83 | if clients register once, no run closes a channel twice or sends on a closed one, and a channel is open exactly when the hub maps its user to it |
| Hub.MappedIsCurrent | internal/notification/hub.go:63-83 | until stuck, the map is exactly the current connections of the history: registered last for the user and not left since |
| Hub.DeliveryIsExact | internal/notification/hub.go:61-98 | until stuck, what a client consumed followed by its queue is, in order, exactly what was broadcast to its user while it was the current connection |
| Hub.StuckExactly | internal/notification/hub.go:90-97 | the loop gets stuck if and only if some broadcast finds its user's current connection with a full queue |
| Hub.ConsumedIsTaken | internal/notification/hub.go:134-147 | until stuck, a client has consumed its first messages, as many as its write pump had turns with one to take |
| Hub.ConsumeExactly | internal/notification/hub.go:134-147 | a turn of the write pump takes the oldest message not yet taken if there is one, and changes nothing else |
| Hub.StuckByHistory | internal/notification/hub.go:85-97 | the loop gets stuck if and only if some broadcast meets a current connection with 256 messages addressed to it and not taken, by the history of registrations, broadcasts and pump turns alone |
| Hub.KeepingUpNeverOverflows | internal/notification/hub.go:85-97 | a client whose pump has a turn after each of its messages and before the next is never the one that stops the loop |
| Hub.KeepingUpKeepsTheHubGoing | internal/notification/hub.go:85-97 | if every client keeps up so, the loop is never stuck and each has taken all but at most one of its messages |
| Hub.StuckStays | internal/notification/hub.go:90-97 | once stuck it stays so, and nobody receives anything more |
| Hub.BurstSticksExactly | internal/notification/hub.go:85-97 | in any state the hub can be in, a burst to a connected user who reads nothing stops the hub if and only if it does not fit into what is left of the queue, and is queued in order otherwise |
| Hub.SlowClientStopsTheHub | internal/notification/hub.go:85-97 | one registration and 257 broadcasts, nothing read: the hub is stuck |
| Hub.RegisteringTwicePanics | internal/notification/hub.go:66-72 | why registering once is assumed: a client registered twice, which the handler never does, would make the next broadcast panic |
| Hub.NotificationHub.Run | internal/notification/hub.go:60-100 | the loop over client objects is the run of its inbox |
| Hub.NotificationHub.OnRegister | internal/notification/hub.go:63-74 | one registration step on the client objects |
| Hub.NotificationHub.OnUnregister | internal/notification/hub.go:76-83 | one unregistration step; another client's is ignored |
| Hub.NotificationHub.OnBroadcast | internal/notification/hub.go:85-97 | one broadcast step |
| Hub.Client.Take | internal/notification/hub.go:134-147 | the write pump takes the oldest message, from a closed channel too |
| Hub.NotificationHub.Pump | internal/notification/hub.go:134-147 | one turn of the pump: the oldest message leaves the queue and is sent, if there is one |
| Payment.MoneyIsConserved | internal/payment/payment.go:156-184 | in every interleaving with any failures, for every weighing of charges, captured equals recorded plus lost after capture plus in flight |
| Payment.WholeCentsAreConserved | internal/payment/payment.go:168-184 | with amounts in whole cents the same holds of the amounts as captured |
| Payment.RecordedAtMostOncePerFailedRead | internal/payment/payment.go:156-160 | if calls for a ride do not overlap, its payments number at most one more than its failed reads |
| Payment.CapturedAtMostOncePerFailure | internal/payment/payment.go:156-184 | and its captures at most one more than its failed reads and its failed inserts together |
| Payment.ChargedExactly | internal/payment/payment.go:156-174 | in any run a ride's captures number the calls that failed to read or found nothing and whose intent and capture succeeded; at most one if and only if there is at most one such call |
| Payment.SecondChargeHasACause | internal/payment/payment.go:156-184 | when the later of two charging calls read, its read failed, or the earlier call was under way, or had lost its row |
| Payment.RecordedExactly | internal/payment/payment.go:156-184 | and its payments number those of them whose insert committed |
| Payment.CapturesAreFinal | internal/payment/payment.go:148-193 | no run takes a capture back |
| Payment.FailedReadChargesTwice | internal/payment/payment.go:157-160 | two calls in a row that charge twice because the second cannot read |
| Payment.OverlappingCallsChargeTwice | internal/payment/payment.go:157-184 | two overlapping calls that charge twice without any failure |
| Payment.LostInsertChargesTwice | internal/payment/payment.go:157-186 | two calls in a row that charge twice and record once, every read working, because the first insert fails |
| Payment.Service.ChargeRide | internal/payment/payment.go:149-193 | with arbitrary calls of others in between, a call is its steps up to the first that fails, or its read alone when that finds a payment, with the matching result |
| Payment.Service.Create | internal/payment/payment.go:94-106 | one insert step |
| Payment.Service.FindPaid | internal/payment/payment.go:156-160 | finds a completed payment exactly when the read works and there is one |
| Location.FindAlikeExactly | internal/location/location.go:186-203 | the cache and the log find a driver alike in every search if and only if the cache holds the newest position |
| Location.FoundIsAnswered | internal/location/location.go:115-147 | and what they find is what an untruncated geo search and the query answer with |
| Location.HoldsNewestExactly | internal/location/location.go:170-182 | in any run, with failures and overlaps, the cache holds a driver's newest position if and only if the last cache write and the newest row carry one position, or neither exists; so whenever one update made both |
| Location.CacheAgainstLog | migrations/004_create_locations.up.sql:31-48 | of an available driver whose updates do not overlap or fail and who has none under way, whatever others do: if the untruncated cache answers with the driver so does the log, the same; if only the log does, it is not at the newest position |
| Location.CachedIsNewestExactly | internal/location/location.go:170-181 | the cache answers with such a driver exactly when the newest position is in range |
| Location.CrossingUpdatesDisagree | internal/location/location.go:172-178 | a run without failures after which the cache and the log place a driver differently |
| Location.HalfAnUpdateDisagrees | internal/location/location.go:172-178 | between the two statements of a first update the cache answers and the log does not |
| Location.RowIsNewestExactly | migrations/004_create_locations.up.sql:32-48 | a row of the log's answer is at the driver's newest position if and only if that is in range |
| Location.LogFindsADriverWhoLeft | migrations/004_create_locations.up.sql:42-48 | an answer with a driver whose newest position is out of range |
| Location.CacheAnswersNearestFirst | internal/location/location.go:115-147 | sorting, truncating and skipping malformed names leave in front a driver no farther than any well-formed one in range in the whole cache |
| Location.Service.GetNearbyDrivers | internal/location/location.go:186-203 | the cache answers exactly if it works and has a well-formed name, with all of them; else the log, asked after anything in between, with all its rows, failing exactly if it fails; the first driver is the nearest of the source that answers |
| Location.Service.UpdateLocation | internal/location/location.go:170-182 | the cache write and the insert, with anything in between, of which only the database's failure is reported |
| Location.Service.ActiveDriverCount | internal/location/location.go:207-213 | the number of results with a well-formed name, at most 20, zero exactly when there is none |
| Location.CountStopsAtTwenty | internal/location/location.go:115-125 | a cache with 21 drivers in range of which an answer gives 20 |
| Location.NearbyDrivers | internal/location/location.go:114-149 | as many drivers as results with a well-formed name, each at the position that counts those before it, with its place and distance |
| Location.WellFormedExactly | internal/location/location.go:129-146 | the same of the answer as a function of the results |
| Location.FindNearby | internal/location/location.go:62-87 | the query's rows in order, in kilometres |
| Location.CappedSupplySurges | internal/ride/service.go:84-86 | whatever the geo search answers, 60 requests give full surge |
| Pagination.HasMoreExactly | pkg/pagination/pagination.go:57-70 | there is more if and only if offset plus limit is below the total |
| Pagination.ParseIsUsable | pkg/pagination/pagination.go:25-44 | every query gives a page from 1, a limit from 1 to 100 and the offset that goes with them; valid values are kept, and missing or low ones become 1 and 20 |
| Pagination.PagesPartitionTheList | pkg/pagination/pagination.go:57-70 | following HasMore from page 1 over an unchanging list gives every item once, in order, in as many pages as announced |
| Pagination.GetHistory | internal/ride/repository.go:186-214 | the i-th row is the one at offset plus i of the ordered rows, as many as there are up to the limit |

## Left out

- HTTP and gRPC handlers, generated code, JWT, bcrypt, Kafka, tracing, metrics and configuration: no state of their own; publishing is asynchronous and unordered.
- Columns of a ride that nothing reads back (coordinates, distance, surge, ETA, updated_at).
- The count of requested rides behind the surge: it is a parameter of the request.
- The trigonometry of the distance, geohash quantisation and geodesics: one abstract distance; floating-point error: reals.
- Contexts and deadlines: a call may stop between any two of its steps, and no step takes effect after its call has ended.
- Redis failover and eviction, lost replies and half-applied commits.
- The two clock readings of a limiter request that opens a window are both modelled; the theorems on denials assume they are equal. Window lengths and lock durations are not negative.
- The limiter's response headers, which do not carry the numbers they are named for.
- RateLimiter.UserRateLimiter.Middleware: does not say what remaining is for a request without a user, because the code sets no header there.
- Changes of driver availability: the location service has one set of available drivers, any set.
- The order of rides with equal creation times, and the selection and ordering of history rows by the database: GetHistory takes the ordered rows.
- The order in which PostgreSQL returns several payments of one ride: all are completed, so the charge does not depend on it.
- RemoveDriver, which nothing calls, and UpdateStatus of payments, Refund and Register, which would add only easy members.
- Client sockets: a client is a queue consumer and a source of unregistrations. Which unregistration follows which read error is not modelled; any may come at any time.
- 64-bit overflow of page offsets: unbounded integers.
