# Verification model of the sukumad delivery queue and login guards

sukumad forwards requests to remote servers. A request expands into deliveries, rows of a work
queue that live in PostgreSQL; any number of worker processes claim due rows, send them, start
remote jobs, poll those jobs, and write the outcome back through SQL functions. Several of those
functions update a row without looking at its status, so their safety rests on the protocol around
them. In front of the API sit an in-memory attempt limiter, an account lockout counter and rotating
refresh tokens.

The project models these parts and proves what holds over whole runs.

| file | contents |
|---|---|
| `Basics.dfy` | optional values, instants, small facts about sets and sequences |
| `Responses.dfy` | what a worker decides from an HTTP answer, for sends and polls |
| `Deliveries.dfy` | the deliveries row, what each SQL function writes into it, backoff arithmetic |
| `ClaimOrder.dfy` | ORDER BY, SKIP LOCKED and LIMIT as a selection |
| `DeliveryStore.dfy` | the table as a class, one method per SQL function, and the two Go handlers |
| `WorkQueue.dfy` | the protocol: processes, cursors, channels and workers over one table, as events |
| `ProtocolStore.dfy` | the store's methods are the events of the protocol |
| `QueueSafety.dfy` | the invariant every event keeps; exclusive hold |
| `QueueHistory.dfy` | whole runs of one delivery: bounded sends, absorbing ends, verdicts, retry spacing |
| `SwapRun.dfy` | the run in which done becomes failed |
| `OverlappingPolls.dfy` | why it needs two polls of one job in flight |
| `Completion.dfy` | which deliveries can still end |
| `Rollup.dfy` | the request_rollup view over reachable tables |
| `Limiters.dfy` | LimiterSet, and its semaphores under interleaving |
| `Workers.dfy` | the dispatch loop and one turn of each worker |
| `Headers.dfy` | header flattening |
| `AttemptWindow.dfy` | the sliding-window limiter, in place, against its full history |
| `Lockout.dfy` | the lockout columns, Login, and histories of one account |
| `RefreshTokens.dfy` | the token table, Refresh and Logout, and sessions over histories |

## How the protocol is modelled

A state holds the clock, the table, which servers and requests exist and are suspended, the
configuration of each process, and, for sends and for polls, which ids sit in which place: the
cursor of a query, a bounded channel, a worker, or lost. An event is one atomic step with the
environment's choices inside it: the rows another transaction has locked, the order in which
RETURNING gives rows, the response of the remote server. `Enabled` and `Apply` say when an event
may happen and what it does; a run is any sequence of enabled events under a clock that does not
go back. Each SQL function is one step. A process that stops loses the rows of its cursors, channels
and workers, each by an event of its own, and takes no more steps.

## Where code and names disagree

- The branch logged as a terminal failure calls finalize_delivery like any other failure, so the
  row is retried until its attempts run out (`Deliveries.SendResult`).
- A row whose scan fails, whose limiter fails or whose final database call fails stays processing
  for good: nothing reclaims it (`QueueSafety.DroppedStaysProcessing`). A server whose use_async is
  NULL makes every scan of its rows fail this way.
- So not every delivery ends (`Completion.NotEveryDeliveryEnds`). Exactly the deliveries whose row
  was not dropped still can (`Completion.CanStillEndIff`), and all of them together
  (`Completion.AllCanEnd`).
- done and failed can swap, since claim_async_polls allows several polls of one job in flight and
  update_async_status has no status guard; the exact condition is `QueueHistory.NeverSwapsIff`, and
  a run without overlapping polls meets it (`OverlappingPolls.NoOverlapNoSwap`).
- SKIP LOCKED comes without a table name, so a claim locks the server and request rows it joins as
  well: overlapping claimers exclude each other by server, and together they hold what one claimer
  would only when no two of those rows clash (`ClaimOrder.ConcurrentClaimers`).
- The lockout settings have documented defaults that the configuration loader does not apply, so
  the policy is a parameter; the bound one expects holds exactly when the lockout outlasts the
  window (`LockoutHistory.BoundHoldsIff`).

## Model

| member | source | states |
|---|---|---|
| `Responses.JobIdMissingIff` | main.go:666-672 | an async answer carries no job id exactly when its Location header has no character but slashes |
| `Responses.JobIdIsLastSegment` | main.go:666-672 | the job id is the last path segment of the Location: header = front + id + slashes, with no slash in the id and front empty or ending in one |
| `Responses.SendOutcome` | main.go:528-558 | which of the three calls a send ends in, and the retry instant handed on: the server's own, unaltered, for 429, 5xx and an async 202 without a job id, none otherwise |
| `Responses.RetryAfterHonouredIff` | main.go:528-558 | a failed send carries a given Retry-After instant exactly when the server sent that instant with a 429, a 5xx or an async 202 without a job id |
| `Responses.TwoStagesAgree` | main.go:584-596 | mapDhis2Job followed by update_async_status classifies every poll answer as one direct reading of the status string does, and the re-poll delay is passed on for unfinished jobs |
| `Responses.ListedWords` | main.go:626 | the classes of the two SQL lists, word for word |
| `Responses.StatusWordsAreDistinct` | main.go:674-691 | whatever the answer, a poll writes one of four words, and each terminal word is written exactly for the answers of its own class and lies in that class of the SQL lists |
| `Deliveries.SendResult` | db/migrations/000001_initial.up.sql:462-495 | from response to row: which answers give done, awaiting_async, ready and failed, attempts, retry_after_at, and the due time: the honoured Retry-After, else LEAST(2 * 2^max(attempts, 1), 120) seconds from now |
| `Deliveries.SendColumns` | main.go:519-558 | the other columns after a send: code, body, error text, job id, poll URL, sent_at, and what stays as it was |
| `Deliveries.PollVerdict` | db/migrations/000001_initial.up.sql:406-436 | a poll leaves done for COMPLETED, SUCCESS and OK, failed for FAILED and ERROR, and the status as it was for anything else, with the async_status written and the next poll time |
| `Deliveries.PollColumns` | db/migrations/000001_initial.up.sql:409-436 | the other columns after a poll: codes 200 and 500, the error text, sent_at, the stored answer |
| `Deliveries.Pow2Adds` | db/migrations/000001_initial.up.sql:482 | the power in the backoff is exponentiation of two |
| `Deliveries.BackoffBounds` | db/migrations/000001_initial.up.sql:482-483 | every delay lies between LEAST(2 min, max) and max and never shrinks as attempts grow |
| `Deliveries.TotalBackoffClosedForm` | db/migrations/000001_initial.up.sql:482-492 | the summed delay of n rescheduled failures is 2^(n+1) seconds up to n = 6 and 128 + 120(n-6) from there |
| `ClaimOrder.First` | db/migrations/000001_initial.up.sql:286 | a row that precedes every other candidate, in the claim order |
| `ClaimOrder.LeftBehind` | db/migrations/000001_initial.up.sql:286-288 | a candidate is left behind only when the limit is reached, by rows that all precede it |
| `ClaimOrder.Pick` | db/migrations/000001_initial.up.sql:277-289 | the picked rows are min(limit, n) candidates such that none left behind precedes a picked one |
| `ClaimOrder.TopIsUnique` | db/migrations/000001_initial.up.sql:277-289 | only one set of rows has that property, so the claim is determined |
| `ClaimOrder.ConcurrentClaimers` | db/migrations/000001_initial.up.sql:277-289 | an overlapping claimer, which skips every row whose own, server or request row the first one holds, gets other rows; the two together hold what one claim of the summed limits would exactly when no row that claim would add clashes with one the first claimer holds |
| `ClaimOrder.ApartClaimersShare` | db/migrations/000001_initial.up.sql:277-289 | overlapping claimers together hold what one claim of the summed limits would when what the first holds shares no server, and for sends no request, with any other candidate |
| `ClaimOrder.SuccessiveClaims` | db/migrations/000001_initial.up.sql:277-289 | of two claims one after the other the second picks up where the first stopped: together they are one claim of the summed limits |
| `ClaimOrder.OneServerAtATime` | db/migrations/000001_initial.up.sql:277-288 | while a claimer holds a delivery of a server, or a send of a request, an overlapping one gets none of that server or request |
| `ClaimOrder.SecondClaimerStarves` | db/migrations/000001_initial.up.sql:277-288 | two due deliveries of one server and two overlapping claimers with room for one each: the second gets nothing, so the summed-limit equality fails |
| `DeliveryStores.ExpandedIsSound` | db/migrations/000001_initial.up.sql:241-248 | what the expander inserts are fresh ready rows of the request, and the unique pair and foreign key constraints still hold |
| `DeliveryStores.DeliveryStore.Expand` | db/migrations/000001_initial.up.sql:233-249 | succeeds exactly when request and servers exist, no server is named twice and none has a delivery already; all rows are inserted, each with its server, priority and defaults, or none |
| `DeliveryStores.DeliveryStore.ClaimDeliveries` | db/migrations/000001_initial.up.sql:277-295 | over the columns: at most limit unlocked due ready rows of live servers and requests become processing and nothing else changes; such a row is left behind only if the limit is reached by rows of higher priority, or the same and an earlier due time, or both the same and a smaller id |
| `DeliveryStores.DeliveryStore.ClaimAsyncPolls` | db/migrations/000001_initial.up.sql:336-351 | over the columns: at most limit unlocked due waiting rows of live servers, suspended requests included, by due time and id; neither status nor due time changes |
| `DeliveryStores.DeliveryStore.StartAsyncDelivery` | db/migrations/000001_initial.up.sql:379-387 | the one row becomes its awaiting_async version, keeping an earlier sent_at; a missing id changes nothing |
| `DeliveryStores.DeliveryStore.UpdateAsyncStatus` | db/migrations/000001_initial.up.sql:406-436 | the one row is written by the class of the status string alone, whatever its current status |
| `DeliveryStores.DeliveryStore.FinalizeDelivery` | db/migrations/000001_initial.up.sql:462-495 | the one row becomes done, ready with a later due time, or failed when the attempt was the last |
| `DeliveryStores.DeliveryStore.HandleSend` | main.go:519-558 | the switch on the status code leaves the row that the decision function and the SQL row function give |
| `DeliveryStores.DeliveryStore.HandlePoll` | main.go:579-596 | the same for a poll answer |
| `WorkQueue.RowStep` | db/migrations/000001_initial.up.sql:289-295 | every event acts on each delivery separately, and only an insert adds one, fresh |
| `ProtocolStore.ClaimMeans` | db/migrations/000001_initial.up.sql:277-295 | over the columns, what a claim event of the protocol brings to a cursor, for sends and polls, and which rows it may leave behind |
| `ProtocolStore.ClaimFollows` | main.go:261-264 | a call of either claim function with a process's batch is an enabled claim event of that process and leaves the table that event leaves |
| `ProtocolStore.SendFollows` | main.go:519-558 | a worker writing the outcome of a send is the finish event of the protocol |
| `ProtocolStore.PollFollows` | main.go:579-596 | the same for a poll |
| `ProtocolStore.ExpandFollows` | db/migrations/000001_initial.up.sql:240-249 | expanding a request is an enabled insert event, or changes nothing |
| `QueueSafety.StepIsGuarded` | db/migrations/000001_initial.up.sql:379-387 | the unguarded SQL updates only ever meet rows in the right phase: a send result meets processing, a poll result a started job, a claim a due ready row |
| `QueueSafety.EffectOnPhase` | db/migrations/000001_initial.up.sql:379-436 | a guarded update keeps the phase of a row, never un-starts a job, and changes membership in processing exactly on claims and send results |
| `QueueSafety.MoveKeepsPartition` | main.go:281-286 | carrying a row from one place to another keeps every processing delivery held exactly once |
| `QueueSafety.StepKeepsSends` | main.go:332-357 | every event keeps the places of the send lane a partition of the processing deliveries |
| `QueueSafety.StepKeepsPolls` | main.go:360-385 | every event keeps poll rows, duplicates included, on deliveries whose job was started |
| `QueueSafety.StepKeepsBounds` | main.go:214-215 | channels stay within twice the claim batch and workers within one row |
| `QueueSafety.StepKeepsInv` | main.go:245-385 | every enabled event of any process keeps the whole invariant |
| `QueueSafety.ReachableInv` | main.go:245-385 | the invariant holds in every reachable state, for any number of processes and workers |
| `QueueSafety.ExclusiveHold` | main.go:261-289 | in every reachable state a processing delivery sits at exactly one position of one cursor, channel, worker or loss place, and any other delivery at none |
| `QueueSafety.NoTwoSenders` | main.go:332-357 | two workers never have the same delivery in hand |
| `QueueSafety.DroppedStaysProcessing` | main.go:344-348 | a delivery whose row was dropped stays processing for the rest of every run |
| `QueueSafety.DroppingLoses` | main.go:276-286 | each of scan error, cancellation, limiter error, failed database call and stopped process drops the row: from then on the delivery is processing at every time of the run |
| `QueueSafety.RowAtStep` | main.go:245-385 | each event of a run meets a guarded row and has exactly its effect on it, at a time not before the previous one |
| `QueueHistory.Accounts` | db/migrations/000001_initial.up.sql:462-495 | in every run: claims, sends, job starts and verdicts of a delivery agree with its attempts, status and job id |
| `QueueHistory.BoundedSends` | db/migrations/000001_initial.up.sql:462-495 | a delivery is claimed at most max(1, max_attempts or 8) times in any run; claims equal attempts when ready or failed by a send and attempts + 1 otherwise; sends equal claims but for the one in hand; its job is started at most once |
| `QueueHistory.RankFalls` | db/migrations/000001_initial.up.sql:462-495 | a lexicographic rank (attempts left, distance from an end) falls on each claim, finalize and job start and is raised by no event |
| `QueueHistory.TerminalAbsorbs` | db/migrations/000001_initial.up.sql:409-436 | over any stretch of any run done and failed are never left, a started job is never un-started and freezes attempts, an end reached without a job freezes the whole row, sent_at is never overwritten |
| `QueueHistory.RowsTellTheirStory` | db/migrations/000001_initial.up.sql:409-436 | in every reachable state sent_at is set exactly for started or done rows, done rows carry no error, failed and retried rows carry one, and a job's end carries 200 or 500 |
| `QueueHistory.PollsConcernStartedJobs` | db/migrations/000001_initial.up.sql:334-351 | every poll in flight concerns a delivery that entered the async phase exactly once and is waiting, done or failed |
| `QueueHistory.StatusIsLastVerdict` | db/migrations/000001_initial.up.sql:409-436 | the status of a delivery that went async is the last terminal answer its polls read, or awaiting_async before the first |
| `QueueHistory.NeverSwapsIff` | db/migrations/000001_initial.up.sql:409-436 | done and failed never swap over a run exactly when all terminal reads of the job in that run agree |
| `QueueHistory.AgreeingNeverSwaps` | db/migrations/000001_initial.up.sql:409-436 | with agreeing reads a terminal status is the same at every later time |
| `QueueHistory.RetrySpacing` | db/migrations/000001_initial.up.sql:479-495 | in every run no claim follows a failed send before the instant the server gave with a 429, a 5xx or a lost job id, or before LEAST(2 * 2^max(attempts,1), 120) seconds without one |
| `QueueHistory.FailureReschedules` | db/migrations/000001_initial.up.sql:479-495 | a failed send with attempts left makes the row ready again, due at exactly that instant |
| `QueueHistory.WaitsOn` | db/migrations/000001_initial.up.sql:282-288 | a delivery that waits for an instant goes on waiting until the clock has reached it, whatever else happens |
| `QueueHistory.ReadyUntilPicked` | db/migrations/000001_initial.up.sql:282-288 | a ready delivery is left alone by every event until it is claimed |
| `QueueHistory.ClaimableExactlyFromFloor` | db/migrations/000001_initial.up.sql:479-495 | between a failed send with attempts left and the next claim, the delivery can be claimed at exactly the times from the retry instant on, its server and request being live |
| `QueueHistory.ExhaustionTakesTheWholeBackoff` | db/migrations/000001_initial.up.sql:482-492 | a delivery exhausted without Retry-After was given the whole backoff: 248 seconds from first to last failure under the default limit |
| `QueueHistory.FailedMeansExhausted` | db/migrations/000001_initial.up.sql:486-488 | attempts equals max(1, limit) exactly for deliveries failed by their sends |
| `SwapRun.TwoPollsInFlight` | db/migrations/000001_initial.up.sql:347-351 | a reachable state with two polls of one delivery in the hands of two workers |
| `SwapRun.DoneCanBecomeFailed` | db/migrations/000001_initial.up.sql:409-427 | a reachable run in which done turns into failed, because two polls in flight read different answers |
| `OverlappingPolls.NoneStaysNone` | db/migrations/000001_initial.up.sql:336-351 | once a delivery has ended with no poll of it in flight, no event polls it or brings a poll of it into flight again |
| `OverlappingPolls.NoOverlapNoSwap` | db/migrations/000001_initial.up.sql:347-351 | in a run that never has two polls of a delivery in flight it gets at most one terminal verdict, so done and failed never swap, whatever the remote job answers |
| `Completion.NotEveryDeliveryEnds` | main.go:276-279 | a reachable state from which no continuation at all ends the delivery, because its row was dropped |
| `Completion.HeldCanBeLost` | main.go:344-348 | no claimed row is safe: from any reachable state, wherever a row is held, a continuation drops it |
| `Completion.CanStillEndIff` | main.go:344-348 | where processes have a batch and workers, a delivery can still end in some continuation of a reachable state exactly when its row was not dropped |
| `Completion.AllCanEnd` | main.go:245-385 | one continuation ends all deliveries that were not dropped together; it adds none, drops none and changes no final status |
| `Completion.OneCanEnd` | main.go:332-385 | the continuation for a single delivery, from any status and any place it is held at |
| `Completion.WorkOff` | main.go:332-385 | what a process has fetched for a lane it can work off until a given delivery has ended, harming no other |
| `Rollups.RollupCounts` | db/migrations/000001_initial.up.sql:505-508 | each count is the number of the request's deliveries in the statuses it is named after, and total = done + failed + pending |
| `Rollups.RollupMeaning` | db/migrations/000001_initial.up.sql:509-515 | the label is done iff there is a delivery and all are done, failed iff one failed, processing iff none failed and one is unfinished, unknown iff there is none |
| `Rollups.QuietStepsKeepRollups` | db/migrations/000001_initial.up.sql:505-515 | claims, reschedules, job starts, drops and unfinished polls leave every request's roll-up unchanged |
| `Rollups.LabelsAreSticky` | db/migrations/000001_initial.up.sql:509-515 | over any stretch of a run with consistent job answers the label failed stays, and so does done while the request gets no new delivery |
| `Limiters.LimiterSettings` | main.go:341-342 | a limiter is made with the rate and burst of its row where those are positive, with 1.0 and the floor of the rate otherwise |
| `Limiters.BurstIsZeroIff` | main.go:341-342 | the burst handed to a key's limiter is zero in exactly one case: no burst set and a rate strictly between 0 and 1 |
| `Limiters.LimiterSet.Lookup` | main.go:131-145 | the first caller fixes a key's limiter and the first positive maxConc its capacity; no entry is ever replaced |
| `Limiters.LimiterSet.Acquire` | main.go:151-156 | the select takes one slot of that key, and no other, unless it goes for the ended context |
| `Limiters.LimiterSet.Wait` | main.go:127-159 | succeeds exactly when both limiters do and, for a bounded row, the select goes for the slot; then and only then one slot of that key is taken, and no entry is replaced |
| `Limiters.LimiterSet.Release` | main.go:153 | gives back one slot of the semaphore it was made for |
| `SlotProtocol.SlotStep` | main.go:127-159 | every interleaved lookup, failure, acquisition and release keeps slots in use equal to the workers holding one, within capacity |
| `SlotProtocol.SlotsAreSafe` | main.go:127-159 | over every interleaving slots in use equal the holders, never exceed the capacity, and a capacity never changes |
| `SlotProtocol.RunsBegin` | main.go:118-124 | a new limiter set, with no semaphore and nobody inside wait, satisfies the invariant |
| `SlotProtocol.ReleaseNeverBlocks` | main.go:153 | a worker that holds a slot can always give it back |
| `SlotProtocol.LookupFollows` | main.go:131-145 | the locked part of wait on the limiter set is the lookup of the protocol, on the same capacities and slots |
| `SlotProtocol.AdmitFollows` | main.go:147-158 | the rest of wait, in whatever state other workers have left the set, is an acquisition of the protocol when it succeeds and a failure when it does not |
| `SlotProtocol.WaitFollows` | main.go:127-159 | a whole call is nothing when the global limiter fails, and otherwise a lookup followed by an acquisition or failure |
| `SlotProtocol.ReleaseFollows` | main.go:153 | a call of the release function is one give-back of the protocol, and never blocks |
| `Workers.Channel.Receive` | main.go:337 | workers take items from the front in order |
| `Workers.Channel.Send` | main.go:282 | a send goes through once there is room, and adds the item at the back |
| `Workers.OfferRow` | main.go:281-286 | a row that scans is sent, behind what the workers left, unless the select goes for the ended context; a full channel makes it wait until a worker has received |
| `Workers.DispatchRows` | main.go:269-287 | rows that scan reach the channel in order until the select first goes for the ended context, unreadable ones are skipped; each row ends with a worker, in the channel or lost, once in all, and the channel never exceeds its capacity |
| `Workers.SendTurn` | main.go:341-355 | one turn writes the row exactly when both limiters, the select and the database took it, as its response demands; the first row of a key fixes the key's rate and burst at its own; and every semaphore ends with the slots in use it began with |
| `Workers.PollTurn` | main.go:369-383 | the same for a poll |
| `Headers.ToString` | main.go:636-664 | the recursive loop over a string builder computes the flattening function |
| `Headers.FlattenJoinsLeaves` | main.go:641-652 | for any nesting the result is the comma-join of the normalised leaves, an empty array being one empty leaf |
| `Headers.RenestingIsInvisible` | main.go:641-652 | wrapping a non-empty run of elements in an array of its own changes nothing |
| `Headers.SpaceTable` | main.go:632-634 | the blanks are the 25 characters with the White_Space property |
| `Headers.FieldsSplitAtBlank` | main.go:632-634 | a blank separates: the fields of a text are those left of it followed by those right of it |
| `Headers.FieldsOfWord` | main.go:632-634 | a word alone is its own only field |
| `Headers.FieldsOfJoin` | main.go:632-634 | splitting words joined by single spaces gives the words back |
| `Headers.CollapseKeepsFields` | main.go:632-634 | collapsing keeps the fields and is idempotent |
| `Headers.CleanIsCollapse` | main.go:639 | the surrounding TrimSpace never has anything to do, and every leaf is free of stray blanks |
| `Headers.ResultIsCollapsed` | main.go:636-664 | every result of toString is a fixed point of collapseSpace |
| `AttemptWindow.AttemptLimiter.AllowAttempt` | internal/handlers/auth_handler.go:37-57 | allowed exactly when fewer than max entries are recent; the key keeps its recent entries in order, plus now when allowed; no other key changes |
| `AttemptWindow.Compact` | internal/handlers/auth_handler.go:43-50 | the two-index loop leaves at the front of the same array exactly the order-preserving filter of the old entries |
| `AttemptWindow.Append` | internal/handlers/auth_handler.go:55 | the new entry follows the old ones, in place or in a grown copy |
| `AttemptHistory.RecentOfOne` | internal/handlers/auth_handler.go:44-49 | an entry is kept exactly when it is no older than the window |
| `AttemptHistory.RecentOfSum` | internal/handlers/auth_handler.go:44-49 | entries are judged one by one and keep their order |
| `AttemptHistory.StoredSeesHistory` | internal/handlers/auth_handler.go:41-50 | from any later time the compacted entries and the full history of allowed attempts have the same recent part |
| `AttemptHistory.StoreRefinesHistory` | internal/handlers/auth_handler.go:41-56 | a call is denied exactly when the unpruned history holds max recent entries, and leaves what one pass over that whole history would |
| `AttemptHistory.StoreIsBounded` | internal/handlers/auth_handler.go:50-55 | never more than max entries are stored for a key |
| `AttemptHistory.KeysAreIndependent` | internal/handlers/auth_handler.go:41-55 | the calls for other keys can be struck from any history |
| `AttemptHistory.CountInCounts` | internal/handlers/auth_handler.go:37-57 | what the two bounds count: positions of the history whose time lies in the closed interval |
| `AttemptHistory.WindowBound` | internal/handlers/auth_handler.go:37-57 | no closed interval as long as the window holds more than max allowed attempts of a key |
| `AttemptHistory.SpanBound` | internal/handlers/auth_handler.go:37-57 | a span of length L holds at most max * (L / window + 1) of them |
| `Lockout.UserRow.RecordLoginSuccess` | internal/repo/user_repo.go:195-198 | sets last_login and zeroes the counter only |
| `Lockout.UserRow.RecordLoginFailure` | internal/repo/user_repo.go:199-202 | increments the counter only |
| `Lockout.UserRow.RecordLoginFailureWithLockout` | internal/repo/user_repo.go:204-223 | the windowed counter and the lock are written from the old row in one statement |
| `Lockout.UserRow.ClearFailuresAndUnlock` | internal/repo/user_repo.go:225-228 | leaves the clear state |
| `Lockout.UserRow.UnlockAccount` | internal/repo/user_repo.go:250-259 | leaves the clear state |
| `Lockout.UserRow.SetPassword` | internal/repo/user_repo.go:230-240 | leaves the clear state and the new hash |
| `Lockout.UserRow.Login` | internal/handlers/auth_handler.go:77-133 | which check answers, for every combination of findings, and the state each answer leaves: a locked account never has a password evaluated |
| `LockoutHistory.CounterKeepsUp` | internal/repo/user_repo.go:204-223 | within a short span the counter never falls behind the wrong passwords evaluated, and once the quota is reached the lock outlasts the span |
| `LockoutHistory.LockoutBound` | internal/handlers/auth_handler.go:95-106 | with a lockout longer than the window, any closed span up to a window long without a clear sees at most max(1, threshold) wrong passwords evaluated, counted denials interleaved at will |
| `LockoutHistory.ShortLockoutIsBeaten` | internal/repo/user_repo.go:204-223 | for every policy whose lockout does not outlast its window, a history that evaluates one more |
| `LockoutHistory.BoundHoldsIff` | internal/repo/user_repo.go:204-223 | the bound holds of a policy over all histories exactly when lockout exceeds window (or the window is negative) |
| `LockoutHistory.RestartAfterLock` | internal/repo/user_repo.go:204-218 | the first wrong password evaluated after a lock was in force starts the count at 1 |
| `LockoutHistory.ColumnsRefineHistory` | internal/repo/user_repo.go:204-228 | without counted denials failed_attempts is the length of the longest chain of failures, gaps within the window, that ends the history since the last clear, and locked_until is the latest failure to reach the threshold plus the lockout |
| `RefreshTokens.TokenStore.Create` | internal/repo/refresh_repo.go:14-19 | the new token is accepted until it expires, unless its id exists already; no other token changes its standing |
| `RefreshTokens.TokenStore.Revoke` | internal/repo/refresh_repo.go:21-24 | that token is never accepted again; every other one exactly when it was before |
| `RefreshTokens.TokenStore.IsActive` | internal/repo/refresh_repo.go:26-32 | true exactly for an existing, unrevoked, unexpired token |
| `RefreshTokens.TokenStore.RevokeAllForUser` | internal/repo/refresh_repo.go:34-37 | no token of the user is accepted at any later time and every other token exactly when it was before; owners and expiries stay |
| `RefreshTokens.TokenStore.Refresh` | internal/handlers/auth_handler.go:143-191 | rotates exactly for an active presented token whose user is found and signed for; the presented token is revoked even when nothing is issued |
| `RefreshTokens.TokenStore.Logout` | internal/handlers/auth_handler.go:199-211 | afterwards no token of the user is accepted, and the tokens of others are untouched |
| `Sessions.SingleUse` | internal/handlers/auth_handler.go:156-163 | in every history each refresh token is accepted at most once |
| `Sessions.RootsStayDistinct` | internal/handlers/auth_handler.go:162-188 | no two unrevoked tokens ever descend from the same login |
| `Sessions.OneActivePerLogin` | internal/handlers/auth_handler.go:162-188 | each login's rotation chain has at most one active token at any time |
| `Sessions.RefreshConserves` | internal/handlers/auth_handler.go:162-188 | an accepted refresh that issues nothing costs its user exactly one unrevoked token, and any other refresh leaves every user's number as it was |
| `Sessions.LoginGrants` | internal/handlers/auth_handler.go:122-130 | a login's token is accepted for seven days and no longer |
| `Sessions.RefreshGrants` | internal/handlers/auth_handler.go:162-188 | an accepted refresh ends the presented token and grants a new one for seven days, or none |
| `Sessions.SessionsAddUp` | internal/handlers/auth_handler.go:121-130 | a user's unrevoked tokens number exactly the logins since the last logout less the refreshes that broke off |
| `Sessions.SessionsAreConserved` | internal/handlers/auth_handler.go:121-130 | a user's active tokens never exceed the successful logins since the last logout |

## Left out

- HTTP execution, client set-up, logging, signals, the connection pool and JSON parsing: answers are parameters; a status string arrives as strings.ToUpper leaves it, and a body as the text stored after truncation.
- rate.Limiter, bcrypt and JWT: whether a wait succeeds, a password matches or a token parses is a parameter.
- Transactions and locks inside PostgreSQL: each SQL function is one atomic step, and the rows it skips because of other transactions are an arbitrary set; ClaimOrder says which set one other claimer gives.
- Integer widths, the doubles behind `2 ^ n` and interval overflow: attempts, powers and instants are unbounded integers.
- Operator overrides of status and due time, and deletions (internal/repo/delivery_repo.go): they break the protocol by design and are no events of a run.
- Liveness under a fair scheduler: Completion says what is possible from a state, not what must come.
- The columns depends_on_delivery_id, scheduled_at, the per-delivery rate overrides and the connection columns a claim returns: the claim does not consult the first two, the rest are passed through.
- WorkQueue: claimAndDispatch, sendWorker and pollWorker appear as events of a state machine, as their interleaving is the point; Workers has their sequential bodies.
- Workers.DispatchRows: a blocked send is one that waits for the next receive; a process whose workers never receive again is not described.
- Limiters.LimiterSet.Wait: a blocked select is a call that has not returned, so a call that is to take a slot is described from when one is free; its two halves interleave with other workers in SlotProtocol.
- Limiters.LimiterSet.Lookup: rate keys are integers, as they are only compared.
- Lockout.UserRow.Login: one account and one clock for the handler and the database; handlers are atomic, so two logins never overlap; the outcome of the attempt limiter is a parameter.
- RefreshTokens.TokenStore.Refresh: writes succeed, handlers are atomic, token ids are fresh and stand as integers; Sessions also takes a token's user name to lead to the user the token was made for.
- Headers.ToString: maps, numbers and Stringers arrive as the text they render to.
- AttemptWindow.Compact: the saturation of time.Duration on differences beyond 292 years.
- CRUD handlers, router, CORS, middleware, migrations runner, seeder, RBAC, password reset tokens and the IP lists: plumbing.
