# A verified model of the community backend's stateful cores

The repository is a NestJS backend for apartment buildings: sign-in and sessions, a board with likes and comments, chat
and notifications, all on PostgreSQL, Redis and Kafka. This project models the parts whose correctness depends on how
several processes and stores interleave, and proves what they promise.

Most cores are written twice. The *serial* form follows the source's own shape: a class per stateful object, methods that
change its fields, loops where the source loops. The *interleaved* form is a transition system: one step per awaited call,
any number of actors, steps in any order, failures and crashes anywhere. Each serial form is tied to its interleaved one by
lemmas that say its calls are runs of it, with the same result: `SerialTickIsARun` and `RolledBackTickIsARun` for a relay's
tick, `ProcessIsRelayMain` for loop and runner, `LikeRefinement` for likes, `NotificationRefinement` for fan-out and
counters, `TokenRefinement` for every request on tokens, `BoardRefinement` for the board, and the postcondition of
`RateLimitGuard.CanActivate` for the limiter. A run is any sequence of steps from the empty state, and a step that is not
enabled changes nothing, so a statement about all sequences is a statement about all interleavings.

| files | what they model |
|---|---|
| `Backoff`, `Outbox`, `OutboxSystem`, `OutboxProofs`, `OutboxTheorems`, `OutboxRetries`, `OutboxRefinement` | the transactional outbox: writers, any number of relays, an append-only broker log, the audit consumer |
| `Shutdown`, `RelayProcess`, `ShutdownTiming` | the polling loop and the shutdown runner of one relay process, beside any steps of the outbox, and its time budget |
| `IdempotentStores` | consumers that insert under a unique id |
| `RedisKeys`, `ShadowCounter`, `ShadowDrift` | a Redis value that shadows a row count, and how far it can drift |
| `LikeCounter`, `LikeSystem`, `LikeRefinement` | likes and their counter |
| `Notifications`, `FanOut`, `UnreadSystem`, `NotificationRefinement` | notification fan-out, reading, and the unread counter |
| `EndToEnd` | outbox and fan-out together, from a domain change to its notifications |
| `TokenTable`, `RefreshTokens`, `TokenFamilies`, `TokenRefinement`, `Sessions` | refresh-token families, rotation, revocation, the session list |
| `RateWindows`, `RateLimit`, `RateLimitGuards`, `RateLimitLate`, `RateLimitBursts`, `RateLimitExact`, `RateLimitSliding` | the fixed-window rate limiter, on time and late |
| `BoardViews`, `BoardCache`, `BoardStaleness`, `BoardRefinement` | the read-through board cache |
| `Prelude` | counting and summing over sequences |

`dafny verify dfyconfig.toml` checks the whole project.

## Findings

Three promises hold only under a condition, which is proved exactly, together with a run that breaks the promise:

* Revoking a token family is final if and only if no refresh of that family is past its checks at that moment
  (`RevokingIsFinalIffNothingInFlight`, `RevokedFamilyRevived`): the compare-and-set tests `usedAt` alone.
* The rate limiter reads the clock before it hits its counters, so a request can hit after the window it read. An aligned
  window keeps to the limit if and only if no earlier request that can still be admitted is outstanding when it opens
  (`AlignedBoundIffNoStraggler`); an interval that begins inside a window keeps to twice the limit if and only if, besides,
  the present counter is free or used up (`SlidingBoundIff`). Requests on time always keep to both bounds
  (`AlignedWindowBound`, `SlidingIntervalBound`); with delays of at most a window the bounds are 3 and 5 times the limit; with
  a limit of 1 and no limit on delays, any number can be admitted in one millisecond (`LateRequestsEscapeTheLimit`).
* A cached post detail joins two reads, and can be a view that never existed (`DetailThatNeverWas`). It was a true view
  whenever the writes between the reads changed the comments before the post and, unless contents recur, only then.

Waiting for the tick at shutdown works if and only if the interval is cleared and the loop holds at most the awaited tick
(`ClosesQuietlyIff`). The source always drains in such a state, since nothing starts the loop again after a signal.

Where comments and code differ, the model follows the code:

* `src/board/application/like-counter.ts:4` says that the counter's time to live is renewed by every write; no write
  renews it (`src/board/infrastructure/redis-like-counter.ts:13-27`), and `PresentKeyIsYoung` depends on that.
* `src/outbox/application/relay-outbox.use-case.ts:15-16` says that the transaction keeps two relays from emitting one
  row twice. That is so for ticks that commit; `AcknowledgedEmissions` counts the repeats that rolled-back ticks cause.
* `RefreshToken.revoke` (`src/auth/domain/refresh-token.entity.ts:79-81`) would overwrite an earlier time of revocation;
  the repository's update, which is what the use cases call, does not, and the model does what it does.
* `src/notification/application/mark-all-read.use-case.ts:20-22` says that deleting the key lets the next read correct
  itself. Not when a reader counted before the rows were read and stores its number after the deletion
  (`ReadAllCanBeUndone`), and only then (`StaysRightIffReadersCurrent`); `SET NX` does not keep a rebuilt like counter from
  missing a like either (`BackfillCanMissAnOp`).
  Both last 3600 s at most.

## Assumptions

One clock for the database, Redis and the processes. A failed database statement aborts its transaction. Ids, token
hashes and event ids are fresh when they are drawn. `maxAttempts`, back-off base and cap are at least 1, and all routes
share one rate-limit window of whole seconds. Row locks and unique indexes behave as PostgreSQL's under READ COMMITTED;
Lua scripts and single Redis commands are atomic.

## Model

| member | source | states |
|---|---|---|
| `Backoff.BackoffGrowsAndSaturates` | src/outbox/domain/backoff.ts:4-11 | waits never shrink from one failure to the next, never exceed the cap, and stay at the cap once there |
| `Backoff.TotalUnderCap` | src/outbox/domain/backoff.ts:4-11 | under the cap, the first k waits add up to base * (2^k - 1) |
| `Backoff.TotalAtMostCaps` | src/outbox/domain/backoff.ts:4-11 | whatever the base, k waits add up to at most k caps |
| `Outbox.OutboxStore.Add` | src/outbox/infrastructure/prisma-outbox-store.ts:37-50 | appends one fresh PENDING row, unless the event already has one: then nothing changes |
| `Outbox.OutboxStore.FetchPending` | src/outbox/infrastructure/prisma-outbox-store.ts:54-77 | the ids are distinct and oldest first; a fetched row is PENDING, unlocked and past its retry time, if it has one; and such a row is left out only when the limit is reached by rows at least as old |
| `Outbox.OutboxStore.MarkPublished` | src/outbox/infrastructure/prisma-outbox-store.ts:79-84 | the one row becomes PUBLISHED, every other row stays |
| `Outbox.OutboxStore.MarkFailed` | src/outbox/infrastructure/prisma-outbox-store.ts:86-119 | FAILED at the last attempt, at `now`; before it the status stays and the retry time is `now` plus the base doubled once per earlier failure, up to the cap; no other row changes |
| `Outbox.EventPublisher.PublishOrThrow` | src/events/kafka-event.publisher.ts:35-48 | a resolved call left the message in the log; a rejected one may have, too |
| `Outbox.RelayOutbox.TakeTurn` | src/outbox/application/relay-outbox.use-case.ts:31-67 | one row's turn: the emission stays even when the marking statement fails |
| `Outbox.RelayOutbox.RunBatch` | src/outbox/application/relay-outbox.use-case.ts:30-68 | the loop succeeds exactly when no statement fails; the log gains exactly the emissions of the turns taken, the table exactly their marks |
| `Outbox.RelayOutbox.Execute` | src/outbox/application/relay-outbox.use-case.ts:28-70 | a tick commits all its marks or none, and its emissions survive either way |
| `Outbox.AfterTurnsAt` | src/outbox/application/relay-outbox.use-case.ts:30-67 | a batch marks each fetched row once, by its own turn, and no other row |
| `Outbox.RetriedExactlyAfterItsWait` | src/outbox/infrastructure/prisma-outbox-store.ts:54-117 | after a failed emission marked at `at`, a fetch with room left takes the row if and only if an attempt remains and its doubled wait, up to the cap, has passed |
| `OutboxRefinement.SerialTickIsARun` | src/outbox/application/relay-outbox.use-case.ts:28-70 | a tick that commits: fetch, turns and commit of the interleaved model leave exactly the table and log that `Execute` promises |
| `OutboxRefinement.RolledBackTickIsARun` | src/outbox/application/relay-outbox.use-case.ts:28-70 | a tick that does not, because a statement or its commit fails: a run that ends in rollback leaves the table as before and exactly the emissions `Execute` promises |
| `OutboxProofs.NextInv` | src/outbox/infrastructure/prisma-outbox-store.ts:37-119 | every step of writers, relays and the consumer keeps the invariant on locks, marks, rows, history, log, audit and timing |
| `OutboxProofs.RunInv` | src/outbox/application/relay-outbox.use-case.ts:28-70 | so does every run |
| `OutboxTheorems.NoRowHeldTwice` | src/outbox/infrastructure/prisma-outbox-store.ts:58-66 | no row is locked by two open ticks, in any reachable state |
| `OutboxTheorems.AcknowledgedEmissions` | src/outbox/application/relay-outbox.use-case.ts:28-70 | acknowledged emissions of a row are exactly 1 if it is PUBLISHED plus the uncommitted ticks that had it acknowledged, hence at most 1 plus the rolled-back ticks that fetched it; it is PUBLISHED exactly when a committed tick had its emission acknowledged |
| `OutboxTheorems.TerminalRowsNeverChange` | src/outbox/infrastructure/prisma-outbox-store.ts:61-64 | PUBLISHED and FAILED rows are the same for ever after |
| `OutboxTheorems.OneRowPerChange` | src/outbox/infrastructure/prisma-outbox-store.ts:37-50 | each committed domain change has exactly one row, and no row is without one |
| `OutboxTheorems.EndToEnd` | src/audit/infrastructure/prisma-audit-log.repository.ts:13-38 | once nothing is PENDING and all logged events are handled, the PUBLISHED and FAILED rows partition the changes and every PUBLISHED event is audited exactly once |
| `OutboxTheorems.AuditedOnlyCommittedOnce` | src/audit/infrastructure/prisma-audit-log.repository.ts:13-38 | at every moment nothing is audited twice or without a committed change |
| `OutboxTheorems.AuditedIffLogged` | src/audit/infrastructure/prisma-audit-log.repository.ts:13-38 | once all logged events are handled, a row's event is audited exactly when the broker ever kept a message of it, FAILED or not |
| `OutboxTheorems.FailedEventCanBeAudited` | src/outbox/infrastructure/prisma-outbox-store.ts:93-105 | a run that quarantines a row whose event was kept by the broker and is audited, so FAILED does not mean unaudited |
| `OutboxTheorems.BacklogStep` | src/outbox/infrastructure/prisma-outbox-store.ts:86-119 | with no new row, no step grows the sum of attempts left, and a committed tick that fetched something shrinks it |
| `OutboxTheorems.BacklogBoundsTicks` | src/outbox/infrastructure/prisma-outbox-store.ts:86-119 | such ticks number at most that sum at the start, and a sum of 0 means nothing is PENDING |
| `OutboxTheorems.EmptyFetchMeansNoWork` | src/outbox/infrastructure/prisma-outbox-store.ts:58-66 | while a due row is unlocked, no fetch comes back empty |
| `OutboxTheorems.QuarantineAfterAllAttempts` | src/outbox/infrastructure/prisma-outbox-store.ts:92-117 | a row is FAILED exactly when maxAttempts committed ticks failed it, and not before the policy's first maxAttempts - 1 waits have passed since the first failure |
| `OutboxTheorems.QuarantineDelayUnderCap` | src/outbox/infrastructure/prisma-outbox-store.ts:92-117 | that delay in closed form while the waits are under the cap |
| `OutboxRetries.FetchedExactlyWhenWaitsAreOver` | src/outbox/infrastructure/prisma-outbox-store.ts:58-117 | in every reachable state a fetch with room takes an unlocked row if and only if it is PENDING and its wait is over since each of its committed failures; oldest first, and only the limit can leave one for later |
| `Shutdown.RelayLoop.Start` | src/workers/relay-loop.ts:16-28 | sets the interval once; a second call changes nothing |
| `Shutdown.RelayLoop.OnInterval` | src/workers/relay-loop.ts:18-27 | a tick begins exactly when none is in flight |
| `Shutdown.RelayLoop.OnSettled` | src/workers/relay-loop.ts:24-26 | the next interval, whenever it comes, begins a tick, and the interval is as it was |
| `Shutdown.RelayLoop.Stop` | src/workers/relay-loop.ts:31-37 | clears the interval and awaits the very tick that is in flight |
| `Shutdown.ShutdownRunner.OnSignal` | src/common/shutdown/graceful-shutdown.ts:72-88 | the first signal stops the loop, awaits the tick in flight and sets the watchdog to `timeoutMs` from now; later ones change nothing in runner or loop |
| `Shutdown.ShutdownRunner.OnWatchdog` | src/common/shutdown/graceful-shutdown.ts:77-85 | when it fires no exit has happened, and exactly one, with 1, is now to come |
| `Shutdown.ShutdownRunner.OnClosed` | src/common/shutdown/graceful-shutdown.ts:89-95 | called only while closing: the exits are then [0] if the watchdog has not fired, and otherwise what they were, without a 0 |
| `Shutdown.ShutdownRunner.OnThrown` | src/common/shutdown/graceful-shutdown.ts:96-103 | called only while draining or closing: then exactly one exit has happened or is to come, and none with 0 |
| `Shutdown.ShutdownRunner.OnFlushed` | src/common/shutdown/graceful-shutdown.ts:66-70 | the exit it makes is the only one, with 1, and no other is to come |
| `Shutdown.RelayMain.Handle` | src/workers/outbox-relay.main.ts:38-47 | any event at any time keeps the account of exits, and changes loop and runner as the process model says |
| `Shutdown.RelayMain.HandleAll` | src/common/shutdown/graceful-shutdown.ts:50-105 | after any events one exit at most, with 0 exactly for a close that finished before the watchdog |
| `RelayProcess.ProcessIsRelayMain` | src/workers/outbox-relay.main.ts:38-47 | the steps of the interleaved process that call back into it do what `Handle` does, and the others leave loop and runner alone |
| `RelayProcess.OneExit` | src/common/shutdown/graceful-shutdown.ts:50-105 | over all runs at most one exit happens, with 0 exactly when drain and close finished before the watchdog, and it has happened as soon as the runner is done or timed out and the flush settled |
| `RelayProcess.OneTickInFlight` | src/workers/relay-loop.ts:16-28 | at most one tick of a process is in flight, restarts included |
| `RelayProcess.NoTickOnceCloseBegins` | src/workers/outbox-relay.main.ts:38-47 | from the moment close begins, every tick has settled with its transaction committed or rolled back, if no start came after the signal |
| `RelayProcess.NoTickUntilStart` | src/workers/relay-loop.ts:31-37 | a loop that is stopped and idle begins no tick until it is started |
| `RelayProcess.NoUnmarkedEmissionAtClose` | src/workers/relay-loop.ts:3-5 | when close begins, every row the process emitted with an acknowledgement is PUBLISHED, or its tick rolled back |
| `RelayProcess.ClosesQuietlyIff` | src/workers/relay-loop.ts:16-37 | from a reachable draining state, no continuation without a start has a tick in flight once close begins, if and only if the interval is cleared and the loop holds at most the awaited tick |
| `RelayProcess.DbRun` | src/workers/outbox-relay.main.ts:38-47 | the outbox under this process keeps its invariant, so all its theorems apply |
| `ShutdownTiming.TimesOutIff` | src/common/shutdown/graceful-shutdown.ts:77-85 | over any events, the shutdown times out if and only if the timer is due, at least `timeoutMs` after the first signal, before the runner is done |
| `ShutdownTiming.ExitsWithZeroIffInTime` | src/common/shutdown/graceful-shutdown.ts:72-105 | the exit is 0 exactly when drain and close finish and the timer was not due before that; before a signal there is none |
| `ShutdownTiming.DrainAndCloseInTime` | src/common/shutdown/graceful-shutdown.ts:87-95 | after the first signal the tick settles, drain and close resolve, and a timer that fires early does nothing: the one exit is 0, whatever comes later |
| `ShutdownTiming.WatchdogKeepsTheBudget` | src/common/shutdown/graceful-shutdown.ts:72-95 | in every run among other processes: timed out only if `timeoutMs` have passed since the first signal; from then on, and not before, the watchdog can fire until the runner is done; a drain and close that finish sooner exit with 0 for good |
| `IdempotentStores.UniqueIdRepository.Persist` | src/audit/infrastructure/prisma-audit-log.repository.ts:13-38 | of events, and likewise of chat messages: inserts unless the id is there, reports only other failures, and a repeat changes nothing |
| `IdempotentStores.InsertAddsId` | src/audit/infrastructure/prisma-audit-log.repository.ts:26-37 | the ids such a table holds grow as the outbox model's audit does |
| `IdempotentStores.FirstWriterWins` | src/audit/infrastructure/prisma-audit-log.repository.ts:27-35 | after any deliveries each id is stored once, with the contents that came first, and nothing else is |
| `IdempotentStores.RedeliveryChangesNothing` | src/audit/infrastructure/prisma-audit-log.repository.ts:27-35 | delivering again anything delivered before changes nothing |
| `IdempotentStores.DeliveriesConfluent` | src/chat/infrastructure/prisma-message.repository.ts:25-35 | when ids determine contents, order and repetition of deliveries do not matter |
| `RedisKeys.PresentKeyIsYoung` | src/board/infrastructure/redis-like-counter.ts:13-27 | whatever commands run, a key that is there was put there by one fill less than 3600 s ago and has been there since |
| `LikeCounter.RedisLikeCounter.IncrBy` | src/board/infrastructure/redis-like-counter.ts:22-40 | a missing key stays missing, a result below 0 becomes 0, the expiry and other keys stay |
| `LikeCounter.RedisLikeCounter.GetMany` | src/board/infrastructure/redis-like-counter.ts:42-59 | answers exactly the asked posts with a live key and a slot that did not err, with their values |
| `LikeCounter.RedisLikeCounter.Remove` | src/board/infrastructure/redis-like-counter.ts:61-63 | the key is gone, the others stay |
| `LikeCounter.RedisLikeCounter.Backfill` | src/board/infrastructure/redis-like-counter.ts:65-79 | fills exactly the missing keys among the entries and overwrites none |
| `LikeCounter.PostLikes.Like` | src/board/infrastructure/prisma-post-like.repository.ts:10-22 | true exactly when a row was added |
| `LikeCounter.PostLikes.Unlike` | src/board/infrastructure/prisma-post-like.repository.ts:24-34 | true exactly when a row was removed |
| `LikeCounter.PostLikes.CountByPosts` | src/board/infrastructure/prisma-post-like.repository.ts:40-48 | the row count of every asked post that has likes, and no other entry |
| `LikeCounter.LikeCountReader.ReadMany` | src/board/application/like-count-reader.ts:17-29 | every asked post gets its cached number or, unanswered, its row count; exactly the missing keys are filled; so with agreeing keys every answer is the row count (0 included) and the keys still agree |
| `LikeCounter.LikeCountReader.ReadOne` | src/board/application/like-count-reader.ts:31-34 | the same for one post, other keys untouched |
| `LikeCounter.LikeCountReader.ReadTwice` | src/board/application/like-count-reader.ts:17-29 | an immediate repeat gives the same answer with no COUNT |
| `LikeCounter.LikeUseCases.LikePost` | src/board/application/like-post.use-case.ts:45-86 | the row is there, an event is added only for a new like, key and answer are exact for a counter step made or failed; keys that agree still do unless the step fails |
| `LikeCounter.LikeUseCases.UnlikePost` | src/board/application/unlike-post.use-case.ts:41-66 | the row is gone, no event, key and answer are exact for a counter step made or failed; keys that agree still do unless the step fails |
| `LikeCounter.LikesAfterAdd` | src/board/infrastructure/prisma-post-like.repository.ts:10-22 | a like adds one to its own post's count, or nothing if it was there |
| `LikeCounter.LikesAfterRemove` | src/board/infrastructure/prisma-post-like.repository.ts:24-34 | an unlike takes one from its own post's count, or nothing |
| `LikeCounter.ClampNeverFiresSerially` | src/board/infrastructure/redis-like-counter.ts:19-27 | with an agreeing key the decrement of a real unlike stays non-negative and gives the new row count |
| `ShadowCounter.DriftStep` | src/board/infrastructure/redis-like-counter.ts:22-27 | no step moves a living key's drift except a clamp, by one, and a lost counter step, by that step; none moves its expiry |
| `ShadowDrift.BirthDrift` | src/board/application/like-count-reader.ts:25-27 | a fresh key's drift is fixed by the transitions that straddle COUNT and SET NX |
| `ShadowDrift.DriftLaw` | src/board/application/like-count-reader.ts:17-29 | for every run, a present key was born by one backfill less than 3600 s ago and has drifted from there by exactly the clamps and lost steps since |
| `ShadowCounter.ClampNeverMovesAway` | src/board/infrastructure/redis-like-counter.ts:19-27 | a clamp leaves the cached value as it is, nearer to the row count than a plain decrement |
| `ShadowDrift.ExactIffBalanced` | src/board/application/like-count-reader.ts:17-29 | when no step waits, the key is exact if and only if its birth drift and later shifts cancel out |
| `ShadowDrift.LostStepHeals` | src/board/infrastructure/redis-like-counter.ts:13-17 | a key seen 3600 s after a lost step was born after it |
| `ShadowDrift.BackfillCanMissAnOp` | src/board/infrastructure/redis-like-counter.ts:65-79 | a run without any failure that ends with a drift of -1 |
| `ShadowDrift.RebuildsExactlyIff` | src/board/application/like-count-reader.ts:25-27 | with no key and no step to come, every rebuild is exact for as long as nothing commits, if and only if every reader under way counted the present rows |
| `LikeSystem.NextInv` | src/board/infrastructure/prisma-post-like.repository.ts:10-34 | every step of interleaved likes, unlikes and readers keeps: open transactions hold different users' rows, and the counter shadows the rows |
| `LikeSystem.LikesConserved` | src/board/application/like-post.use-case.ts:54-70 | over every interleaving, rows are true likes minus true unlikes, and LikeCreated rows number the true likes |
| `LikeSystem.LikeDriftLaw` | src/board/application/like-post.use-case.ts:53-81 | the drift law in the like counter's terms: value = rows - steps to come + straddle at birth + later shifts |
| `LikeSystem.WaitedDeleteRemovesTheRowItSaw` | src/board/infrastructure/prisma-post-like.repository.ts:24-34 | an unlike that waited for the row removes it if and only if no other deletion of it committed meanwhile; a row put back since stays |
| `LikeRefinement.RequestIsARun` | src/board/application/like-post.use-case.ts:45-86 | a like or unlike with nothing beside it is a run of the interleaved model with the rows, events and key of `LikePost` and `UnlikePost`, whatever fails |
| `UnreadSystem.NextInv` | src/notification/infrastructure/prisma-notification.repository.ts:63-76 | every step of interleaved saves and reads keeps the counter a shadow of the unread rows |
| `UnreadSystem.UnreadDriftLaw` | src/notification/infrastructure/redis-notification-counter.ts:18-65 | the drift law in the unread counter's terms, with the deletion after reading all |
| `UnreadSystem.ReadAllCanBeUndone` | src/notification/application/mark-all-read.use-case.ts:23-26 | a run that ends with no unread row and a counter of 1 |
| `UnreadSystem.StaysRightIffReadersCurrent` | src/notification/application/mark-all-read.use-case.ts:23-26 | from a reachable state without key and steps to come, as after reading all, every later rebuild is right if and only if no reader under way holds an old number |
| `Notifications.NotificationTable.SaveIfNew` | src/notification/infrastructure/prisma-notification.repository.ts:27-52 | a row for (event, recipient) is added exactly when there was none |
| `Notifications.NotificationTable.MarkAllRead` | src/notification/infrastructure/prisma-notification.repository.ts:63-68 | exactly the user's unread rows become read |
| `Notifications.NotificationTable.MarkOneRead` | src/notification/infrastructure/prisma-notification.repository.ts:70-76 | true exactly when an unread row of that user became read |
| `Notifications.NotificationTable.CountUnread` | src/notification/infrastructure/prisma-notification.repository.ts:78-82 | the number of the user's unread rows |
| `Notifications.RedisNotificationCounter.Increment` | src/notification/infrastructure/redis-notification-counter.ts:18-22 | one more if the key is live, nothing otherwise; expiry and other keys stay |
| `Notifications.RedisNotificationCounter.Decrement` | src/notification/infrastructure/redis-notification-counter.ts:26-31 | one less but not below 0 if the key is live; expiry and other keys stay |
| `Notifications.RedisNotificationCounter.Backfill` | src/notification/infrastructure/redis-notification-counter.ts:50-60 | fills a missing key only |
| `Notifications.RedisNotificationCounter.Get` | src/notification/infrastructure/redis-notification-counter.ts:45-48 | the live value, or nothing for a missing or expired key |
| `Notifications.RedisNotificationCounter.Reset` | src/notification/infrastructure/redis-notification-counter.ts:62-65 | the key is gone, other keys stay |
| `Notifications.NotificationUseCases.Serve` | src/notification/application/handle-event.use-case.ts:42-74 | one recipient's turn: row, counter step and push for a new row only, as far as the turn got; other users' counters untouched |
| `Notifications.NotificationUseCases.HandleEvent` | src/notification/application/handle-event.use-case.ts:36-76 | a delivery, full or cut short anywhere, gives a recipient not served before exactly one row, one counter step and one push as far as the first turn came, and everyone else nothing; a full one leaves a row for every recipient; keys that agree still do unless a turn stops between row and step |
| `Notifications.TurnsCounts` | src/notification/application/handle-event.use-case.ts:54-56 | unless a turn stops between row and step, each user's unread rows and counter steps grow alike |
| `Notifications.NotificationUseCases.GetUnreadCount` | src/notification/application/get-unread-count.use-case.ts:21-28 | the cached number or the unread row count, filled in; with agreeing keys always the latter, and the keys still agree |
| `Notifications.NotificationUseCases.MarkAllRead` | src/notification/application/mark-all-read.use-case.ts:23-26 | no unread row of the user is left, and the keys still agree |
| `Notifications.NotificationUseCases.MarkOneRead` | src/notification/application/mark-one-read.use-case.ts:22-25 | the counter steps down only on a real transition; with agreeing keys the step never clamps, and the keys still agree |
| `Notifications.ReadAllCounts` | src/notification/infrastructure/prisma-notification.repository.ts:63-68 | reading all empties one user's unread count and no other's |
| `FanOut.AtMostOneEffectPerRow` | src/notification/application/handle-event.use-case.ts:41-75 | over every interleaving of deliveries, a row is there at most once, and its one counter step and its one push are each made, still to be made by the one delivery that saved it, or, for the push, failed |
| `FanOut.ExactlyOncePerRecipient` | src/notification/application/handle-event.use-case.ts:36-76 | once one delivery of an event got through, there is exactly one row per recipient and none for anybody else |
| `FanOut.Confluent` | src/notification/application/handle-event.use-case.ts:36-76 | two runs that received the same events, each completed once, hold the same rows whatever crashes and repeats there were |
| `FanOut.LostStepsAtMostCrashes` | src/notification/application/handle-event.use-case.ts:54-56 | the rows without their counter step are at most the crashed deliveries |
| `NotificationRefinement.HandleEventIsARun` | src/notification/application/handle-event.use-case.ts:36-76 | what `HandleEvent` promises of one execution, full or cut short, a run of the interleaved fan-out has: the same rows, steps and pushes, complete exactly when it was full |
| `NotificationRefinement.SaveIsARun` | src/notification/application/handle-event.use-case.ts:42-56 | saving a row of the table for the user and stepping is a run of the unread model, which then shows the user's rows of the new table and the same key |
| `NotificationRefinement.RebuildIsARun` | src/notification/application/get-unread-count.use-case.ts:25-27 | so is a rebuild, with the table's own unread count in a missing key |
| `NotificationRefinement.ReadAllIsARun` | src/notification/application/mark-all-read.use-case.ts:23-26 | so is reading all of the user's rows of the table |
| `NotificationRefinement.ReadOneIsARun` | src/notification/application/mark-one-read.use-case.ts:22-25 | so is reading one row of the table; a repeat, another user's row or none at all changes nothing |
| `NotificationRefinement.OthersAreShown` | src/notification/infrastructure/prisma-notification.repository.ts:63-76 | what is done to one user's rows of the table leaves every other user's unread model as it is |
| `NotificationRefinement.FlagsReadOne` | src/notification/infrastructure/prisma-notification.repository.ts:70-76 | marking one row of the table marks the user's own notification that it is, and no other user's |
| `EndToEnd.PublishedIsNotifiedOnce` | src/notification/application/handle-event.use-case.ts:36-76 | once nothing is PENDING and all logged events are handled, every PUBLISHED event has exactly one audit record and exactly one notification per recipient and none for anybody else, stepped and pushed at most once |
| `EndToEnd.NotifiedOnlyCommitted` | src/notification/infrastructure/prisma-notification.repository.ts:27-52 | at every moment a notification is there at most once, and only for a recipient of a committed change |
| `TokenTable.ServeInv` | src/auth/application/refresh-tokens.use-case.ts:34-114 | each serial request keeps: hashes unique, one owner per family, exactly one unused row per family |
| `TokenTable.HistoryInv` | src/auth/application/refresh-tokens.use-case.ts:34-114 | so does every serial history |
| `TokenTable.RefreshOnColumns` | src/auth/application/refresh-tokens.use-case.ts:40-113 | the answer to a presented token on its row's columns: used is reuse, revoked or expired or without user is refused, else a pair; and what a pair changes: the row used, one successor in its family |
| `TokenTable.TokenLivesItsDays` | src/auth/application/issue-session.service.ts:41-68 | a token issued by a login or a refresh, unused and unrevoked after any history, is refreshed if and only if the time is before its issue plus the configured days, or two weeks |
| `TokenTable.OnlyTheUnusedRowRefreshes` | src/auth/application/refresh-tokens.use-case.ts:40-75 | a refresh is answered with a pair if and only if signing works and the row with the hash is unused, unrevoked and unexpired and its user is there; and a family has one unused row at most |
| `TokenTable.ReuseKillsFamily` | src/auth/application/refresh-tokens.use-case.ts:46-68 | presenting a used token, expired or revoked as it may be, is answered as reuse and leaves every row of its family revoked |
| `TokenTable.DeadForever` | src/auth/domain/refresh-token.entity.ts:61-67 | a family whose rows are all revoked stays so through every later serial history, and no token of it is ever refreshed |
| `TokenTable.ReuseIsFinal` | src/auth/application/refresh-tokens.use-case.ts:46-68 | both together: after reuse no token of the family is ever refreshed again |
| `TokenTable.DeadTokenChangesNothing` | src/auth/application/refresh-tokens.use-case.ts:40-75 | an unknown token, or an unused one that is expired or revoked, changes nothing |
| `TokenTable.RevocationsKill` | src/auth/application/revoke-session.use-case.ts:16-27 | a logout, an owner's revocation or a password change leaves every row of the families it concerns revoked |
| `TokenTable.OtherFamiliesUntouched` | src/auth/infrastructure/prisma-refresh-token.repository.ts:80-104 | rows of families a request does not concern stay as they are, and a time of revocation is never overwritten |
| `RefreshTokens.RefreshTokenRepository.Save` | src/auth/infrastructure/prisma-refresh-token.repository.ts:42-55 | appends the row unless its hash is taken |
| `RefreshTokens.RefreshTokenRepository.FindByHash` | src/auth/infrastructure/prisma-refresh-token.repository.ts:57-62 | the row with that hash, if there is one |
| `RefreshTokens.RefreshTokenRepository.MarkUsed` | src/auth/infrastructure/prisma-refresh-token.repository.ts:64-78 | 1 and the row is used, or 0 and nothing changes because it already was |
| `RefreshTokens.RefreshTokenRepository.RevokeFamily` | src/auth/infrastructure/prisma-refresh-token.repository.ts:80-92 | revokes exactly the family's unrevoked rows and returns how many |
| `RefreshTokens.RefreshTokenRepository.RevokeAllByUser` | src/auth/infrastructure/prisma-refresh-token.repository.ts:94-104 | revokes exactly the user's unrevoked rows and returns how many |
| `RefreshTokens.RefreshTokenRepository.FindFamilyOwner` | src/auth/infrastructure/prisma-refresh-token.repository.ts:146-152 | the owner that every row of the family names |
| `RefreshTokens.SessionUseCases.Issue` | src/auth/application/issue-session.service.ts:52-78 | one row, expiring the configured days from now, or two weeks, is saved before the access token is signed, so a failed signature leaves it to the transaction to undo |
| `RefreshTokens.SessionUseCases.Judge` | src/auth/application/refresh-tokens.use-case.ts:35-78 | the five verdicts on a presented token are exclusive and exhaustive, and only a spent one changes the table |
| `RefreshTokens.SessionUseCases.ConsumeAndIssue` | src/auth/application/refresh-tokens.use-case.ts:82-113 | the row is consumed and its successor inserted, or nothing changes, whatever happened to the row since it was looked up |
| `RefreshTokens.SessionUseCases.Refresh` | src/auth/application/refresh-tokens.use-case.ts:34-114 | a pair if and only if signing works and the row with the hash is unused, unrevoked and unexpired and its user is there; reuse if and only if it is used; expired is refused; anything else changes nothing; in all, the serial specification's outcome and table |
| `RefreshTokens.SessionUseCases.Login` | src/auth/application/issue-session.service.ts:52-78 | a new family with one row |
| `RefreshTokens.SessionUseCases.Logout` | src/auth/application/logout.use-case.ts:20-29 | the token's family is revoked; an unknown token changes nothing |
| `RefreshTokens.SessionUseCases.RevokeSession` | src/auth/application/revoke-session.use-case.ts:16-27 | revokes the family exactly for its owner; anyone else changes nothing |
| `RefreshTokens.SessionUseCases.ChangePassword` | src/auth/application/change-password.use-case.ts:25-46 | the new hash is stored and all the user's rows are revoked together or, refused or rolled back, neither |
| `TokenFamilies.NextInv` | src/auth/application/refresh-tokens.use-case.ts:82-113 | every step of interleaved logins, refreshes, rollbacks and revocations keeps the family invariant |
| `TokenFamilies.FamilyShape` | src/auth/infrastructure/prisma-refresh-token.repository.ts:42-78 | in every interleaving a family has exactly one unused row, 1 plus its committed rotations rows, and one owner |
| `TokenFamilies.AtMostOneWinner` | src/auth/infrastructure/prisma-refresh-token.repository.ts:69-77 | of concurrent submissions of one token at most one returns a pair, and one has exactly when the token is used |
| `TokenFamilies.RevocationFinalIffNothingInFlight` | src/auth/infrastructure/prisma-refresh-token.repository.ts:73-76 | once every row of a family is revoked, no later run revives it if and only if no refresh of it is past its checks |
| `TokenFamilies.RevokingIsFinalIffNothingInFlight` | src/auth/infrastructure/prisma-refresh-token.repository.ts:80-92 | from the beginning: revoking a family's rows in any reachable state leaves it dead for good if and only if no refresh of it is past its checks when the revocation begins |
| `TokenFamilies.RevokedFamilyRevived` | src/auth/infrastructure/prisma-refresh-token.repository.ts:73-76 | a run in which a revoked family gets a usable row |
| `TokenRefinement.RefreshIsARun` | src/auth/application/refresh-tokens.use-case.ts:34-114 | a refresh with nothing beside it is a run of the interleaved model that leaves the serial table, and wins exactly when it issues |
| `TokenRefinement.RequestIsARun` | src/auth/application/issue-session.service.ts:52-78 | so is every login, refresh, logout, session revocation and password change |
| `Sessions.ActiveFamilies` | src/auth/infrastructure/prisma-refresh-token.repository.ts:113-123 | the first query finds exactly the families with a usable row |
| `Sessions.LoginTime` | src/auth/infrastructure/prisma-refresh-token.repository.ts:132-137 | the second finds the time of the family's earliest row, used or not |
| `Sessions.FindActiveFamilies` | src/auth/infrastructure/prisma-refresh-token.repository.ts:106-144 | exactly the user's families with a usable row, each once, timed by the earliest row, newest first |
| `Sessions.ListSessions` | src/auth/application/list-sessions.use-case.ts:22-35 | that list with at most one session marked current, and one exactly when the caller's family is active |
| `Sessions.OneUsableRowPerSession` | src/auth/infrastructure/prisma-refresh-token.repository.ts:110-121 | a listed family has exactly one token that still works |
| `Sessions.ListedIffRefreshable` | src/auth/infrastructure/prisma-refresh-token.repository.ts:106-123 | a family is listed if and only if a refresh with one of its tokens would be answered with a pair |
| `RateWindows.NestedFloors` | src/common/rate-limit/rate-limit.guard.ts:64 | flooring to seconds first names the same window, and a window is a half-open interval of its length |
| `RateWindows.RetryAfterIsLeast` | src/common/rate-limit/rate-limit.guard.ts:86-87 | Retry-After (section 10.2.3 of RFC 9110) is in 1..windowSec and is the least whole wait after which the window number has grown, by exactly one |
| `RateLimit.NextInv` | src/common/rate-limit/rate-limit.constants.ts:29-33 | every step of any number of guards keeps: counts equal hits of the running lifetime, and passes are within every limit |
| `RateLimit.AlignedWindowBound` | src/common/rate-limit/rate-limit.guard.ts:55-91 | per IP and per user, requests on time with limit at most m are admitted at most m times per aligned window, whatever other limits share the counter |
| `RateLimit.SlidingIntervalBound` | src/common/rate-limit/rate-limit.guard.ts:55-91 | and at most 2m times in any interval of the window's length |
| `RateLimitExact.AlignedBoundIffNoStraggler` | src/common/rate-limit/rate-limit.guard.ts:55-91 | late requests included: from a reachable opening of a window every continuation admits at most m in it if and only if no earlier request that can still be admitted is outstanding |
| `RateLimitSliding.SlidingBoundIff` | src/common/rate-limit/rate-limit.guard.ts:55-91 | late requests included: from a reachable opening inside a window every continuation admits at most 2m in the next window's length if and only if none such is outstanding and the present counter is free or has no room left |
| `RateLimitLate.TwoLivesBound` | src/common/rate-limit/rate-limit.constants.ts:29-33 | one counter lets at most 2m pass in any interval of the window's length |
| `RateLimitLate.AlignedBoundUnderDelay` | src/common/rate-limit/rate-limit.guard.ts:55-91 | with delays of at most a window's length, at most 3m per aligned window |
| `RateLimitLate.SlidingBoundUnderDelay` | src/common/rate-limit/rate-limit.guard.ts:55-91 | and at most 5m in any interval of that length |
| `RateLimit.LifetimeBound` | src/common/rate-limit/rate-limit.constants.ts:29-33 | with late hits included, at most m passes in one lifetime of a counter |
| `RateLimit.KeyOutlivesItsWindow` | src/common/rate-limit/rate-limit.constants.ts:29-33 | a counter never expires inside its own window, and until the window's end it counts all hits on it |
| `RateLimit.PassesIffRoom` | src/common/rate-limit/rate-limit.guard.ts:82-91 | a check passes exactly when fewer than its limit have hit the key in the running lifetime |
| `RateLimit.LateRequestsEscapeTheLimit` | src/common/rate-limit/rate-limit.guard.ts:64-91 | for every n, a run that admits n late requests with limit 1 in one millisecond |
| `RateLimitGuards.RedisRateLimitStore.Hit` | src/common/rate-limit/rate-limit.constants.ts:29-33 | the live count goes up by one and is returned; the expiry is one window from now if a lifetime begins, and stays otherwise |
| `RateLimitGuards.RateLimitGuard.CanActivate` | src/common/rate-limit/rate-limit.guard.ts:38-93 | an unlimited request touches nothing; a limited one passes if and only if the IP's live count is under the route's limit, else the configured one, else 120, and a known user's under theirs, else 60, with both replies back; a refusal carries the seconds to the next window; and all this is a run of the interleaved model |
| `RateLimitGuards.RateLimitGuard.CountHits` | src/common/rate-limit/rate-limit.guard.ts:70-92 | the loop over the checks is a run of the interleaved model, whichever reply is lost |
| `RateLimitGuards.LoneGuardAdmits` | src/common/rate-limit/rate-limit.guard.ts:82-92 | in the interleaved model a guard with nothing beside it admits its request exactly by the counters it finds |
| `BoardViews.ListShowsExactlyTheLiving` | src/board/infrastructure/prisma-post.repository.ts:52-58 | a list shows each undeleted post of its building once, and no other, newest first |
| `BoardViews.DetailShowsExactlyTheLiving` | src/board/infrastructure/prisma-comment.repository.ts:28-41 | a detail shows each undeleted comment of its post once, and no other, oldest first |
| `BoardViews.OtherViewsSame` | src/board/application/update-post.use-case.ts:28-32 | a write changes no view whose key its use case does not delete, save the new post's own detail |
| `BoardViews.ViewsOnColumns` | src/board/application/get-post.use-case.ts:58-75 | what a view built from the database shows: a list the stored columns of each living post once, newest first; a detail those of the living post and of its living comments, oldest first; nothing of a deleted post |
| `BoardViews.DeletedForGood` | src/board/infrastructure/prisma-post.repository.ts:44-81 | after any writes a post is not found if and only if it was deleted among them; it keeps building, author, category and date, and its text is the last edit's |
| `BoardCache.BoardDatabase.AddPost` | src/board/application/create-post.use-case.ts:48-67 | the post and its outbox row come together |
| `BoardCache.BoardDatabase.AddComment` | src/board/application/create-comment.use-case.ts:44-66 | the comment and its outbox row come together |
| `BoardCache.BoardDatabase.Update` | src/board/infrastructure/prisma-post.repository.ts:60-66 | title and text of the one post change, nothing else |
| `BoardCache.BoardDatabase.Delete` | src/board/infrastructure/prisma-post.repository.ts:68-82 | the post and all its comments are marked deleted together, no other row is touched |
| `BoardRefinement.SetThenGet` | src/board/infrastructure/redis-board-cache.ts:22-45 | what was set is what is got, for 120 s and no longer, and other keys are as they were |
| `BoardCache.RedisBoardCache.Set` | src/board/infrastructure/redis-board-cache.ts:27-34 | the key holds the value for 120 s, other keys stay |
| `BoardCache.RedisBoardCache.Invalidate` | src/board/infrastructure/redis-board-cache.ts:50-56 | the key is gone, other keys stay |
| `BoardCache.BoardUseCases.GetPost` | src/board/application/get-post.use-case.ts:51-84 | not found if and only if there is no such post or it is deleted; else refused to non-members; else the post's stored columns and its living comments, cached or not; leaves the answer and nothing else new in the cache, and keeps the cache coherent |
| `BoardCache.BoardUseCases.ListPosts` | src/board/application/list-posts.use-case.ts:33-65 | for members, and only for them, each living post of the building once as stored, newest first, cached or not; the cache stays coherent |
| `BoardCache.BoardUseCases.CreatePostUseCase` | src/board/application/create-post.use-case.ts:35-72 | keeps every present entry equal to the view rebuilt from the database; one event per created post |
| `BoardCache.BoardUseCases.CreateCommentUseCase` | src/board/application/create-comment.use-case.ts:37-71 | the same for comments; refused exactly where the post cannot be seen or the text is empty |
| `BoardCache.BoardUseCases.UpdatePostUseCase` | src/board/application/update-post.use-case.ts:22-34 | title and text of a living post change, for its author only; the two keys concerned go and the cache stays coherent |
| `BoardCache.BoardUseCases.DeletePostUseCase` | src/board/application/delete-post.use-case.ts:21-32 | the author's deletion: the post and its comments are deleted, every later read answers not found, the two keys and the like counter's key go, and the cache stays coherent |
| `BoardStaleness.ServedListWasTrue` | src/board/application/list-posts.use-case.ts:52-65 | under every interleaving a served list was the true one less than 120 s plus its loader's own delay ago |
| `BoardStaleness.ServedDetailWasTrue` | src/board/application/get-post.use-case.ts:51-78 | each part of a served detail was true within that time; the whole was between the reads if the writes there changed the comments before the post and, unless contents recur there, only if; unless contents ever recur, that is also exactly when the whole was true at any time |
| `BoardStaleness.StaleOnlyIfOwedOrLate` | src/board/infrastructure/redis-board-cache.ts:27-56 | a cached view is the current one unless a write's invalidation is outstanding or the loader straddled an invalidation |
| `BoardStaleness.StaleDetailGuardsItsBuilding` | src/board/application/get-post.use-case.ts:52-56 | however stale, a detail names the post's own building, so membership is checked against the right one |
| `BoardStaleness.DetailThatNeverWas` | src/board/application/get-post.use-case.ts:58-76 | a run that serves a detail no version of the database ever showed |
| `BoardRefinement.ReadIsARun` | src/board/application/get-post.use-case.ts:51-78 | a read with nothing beside it, hit or miss, is a run that serves the same view and leaves the same cache as the use case |
| `BoardRefinement.WriteIsARun` | src/board/application/update-post.use-case.ts:28-32 | a write and its invalidations are a run that leaves database and cache as the use case does, and coherent |

## Left out

- Kakao sign-in, JWT and password hashing, token generation: values that are fresh or equal, as needed.
- Controllers, DTOs, role guards, error rendering, logging, tracing and metrics: no effect on the modelled state.
- WebSocket gateways, Redis pub/sub and the chat send path: a push is one best-effort step here.
- Recipients and memberships: given functions of the event and the database.
- `src/property/application/redeem-invite-code.use-case.ts` and `src/property/application/end-lease.use-case.ts`: for the
  outbox they are two more writers that stage one row in their transaction, which `OutboxSystem` has; one LeaseEnded event
  per lease under concurrency is not promised by the code.
- Likes merged into lists and details: `LikeCounter.LikeCountReader.ReadMany` proves the numbers; the merge is a lookup.
- Emission order: back-off and skipped locks allow any order across rows.
- Rate-limit windows of fractional length or differing by route: no route sets one, and one process reads one setting.
- A Redis call that fails before its script ran: such a request is one that never takes its step; the guard fails it.
- RateLimit.AlignedWindowBound: speaks of requests that hit in the window they read;
  `RateLimitExact.AlignedBoundIffNoStraggler` and `RateLimitLate.AlignedBoundUnderDelay` speak of all.
- RateLimit.SlidingIntervalBound: likewise; `RateLimitSliding.SlidingBoundIff` speaks of intervals that begin inside a window
  and `RateLimitExact.AlignedBoundIffNoStraggler` of those that begin with one.
- BoardStaleness.ServedDetailWasTrue: where contents recur, an edit undone for instance, the order of the writes is sufficient
  and not necessary.
- TokenFamilies.RevocationFinalIffNothingInFlight: revocation of a family is one step per row there, each waiting for the
  row's lock, as the update statement takes its rows.
- Deletion of users with their tokens; the order of posts or comments created in the same millisecond, which SQL leaves open.
- The HTTP server's own drain and the other workers' bootstraps: they use the same shutdown runner.
