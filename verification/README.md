# Verified model of honker's queue, scheduler and watcher core

honker keeps job queues, a cron scheduler and change notification inside a
SQLite file. This project models the parts of `honker-core` whose correctness
is hard to see from the code, and proves what they promise over every input,
run or interleaving:

- **The job tables** (`Queue`, `Jobs`, `Runs`, `Claims`, `Rows`, `NextClaim`,
  `Retry`, `AckBatches`, `Stores`, `Atomicity`). `Queue` gives each SQL statement or savepoint body as
  a function on a snapshot of the live table, the dead table and the id counter.
  `Jobs` projects every operation onto the automaton a single job follows, and
  `Runs` proves conservation, fencing and lease safety of whole runs from it.
  `Rows` says what each operation writes with every condition and column on the
  rows themselves, so that no guard or sort key is its own specification.
  `Stores` runs the same operations statement by statement on mutable tables, any
  statement of which may fail. `Atomicity` hands their bodies to `in_savepoint` on
  a connection whose SAVEPOINT, RELEASE and ROLLBACK may fail as well, and shows
  that a run there is a run of the model.
- **The scheduler** (`Calendar`, `Cron`, `CronParse`, `Zones`, `Scheduler`,
  `Ticks`): field parsing, the skipping next-fire search over the Gregorian
  calendar, time zones with gaps and folds, and ticks with their catch-up cap.
- **The connection and wake path** (`Savepoints`, `Migration`, `Wakes`,
  `Sleepers`, `ShmRegistry`): savepoints under failing commands, the one-time
  migration raced by many processes, the poller and its subscribers, a worker
  that sleeps on an empty queue, and the registry of `-shm` descriptors.
- `Ranking`, `IntSets` and `Wrappers` are shared: `ORDER BY ... LIMIT`, least
  elements, `Option` and `Result`.

`dafny verify dfyconfig.toml` checks everything.

Reading conventions. Times are integers, SQL NULL is `None`, a comparison with
NULL is false, and a negative LIMIT is no limit. SQLite is a serializable
single-writer store: a statement, or a savepoint body, is atomic and may fail.
An operation reads the clock once, except `retry`, whose statements each read
it. Runs consist of honker operations, and the clock does not run backwards.
Where a source routine updates state, a method does too, and its `ensures` ties
the new state to the specification function the lemmas are about. In `Sleepers` a
worker whose timer has already run out counts as parked and about to wake; the
code claims again without parking.

## Where the code does less than its comments

- `next_after_unix` says "strictly after". In the second pass of a clock fold it
  can go back (`Zones.FoldGoesBack`). `Zones.StrictForEveryScheduleIff` says from
  which instants it never does, and `Zones.StrictIff` for which schedules it does
  not; without folds it never does.
- `queue_next_claim_at` says when a claim could next return a job, but does not
  see leases that have already lapsed (`NextClaim.LapsedLeaseIsInvisible`);
  `NextClaim.AnswerHoldsIff` gives the exact condition. So a worker that claims in
  one second and asks in the next can sleep without a timer over a job
  (`Sleepers.LateAskSleepsThrough`); one that asks within the second of its empty
  claim cannot (`Sleepers.PromptRunIsSafe`).
- The poller says a reconnect forces a wake. The error does; the reconnect takes
  a new baseline silently (`Wakes.ReconnectCanLoseAWake`). `Wakes.NeverLostIff`
  says exactly which runs lose nothing.
- The tick's skip is described as resuming on the next boundary. For `@every` it
  can start a new chain from the tick time (`Scheduler.EverySkipLeavesChain`);
  `Scheduler.EverySkipOnChainIff` says exactly when a tick stays on its chain.
- Day of month and day of week are both required, unlike the either-field rule of
  the POSIX.1-2017 `crontab` utility.

## Model

| member | source | states |
|---|---|---|
| Ranking.TopNMeaning | honker-core/src/honker_ops.rs:872-878 | ORDER BY ... LIMIT n is the one subset of size min(n, rows) whose members all precede the rest |
| Ranking.TwoArms | honker-core/src/honker_ops.rs:931-948 | limiting the ready arm before the UNION and again after it returns the same rows as one limit over both arms |
| Claims.ClaimIsTopEligible | honker-core/src/honker_ops.rs:867-951 | whatever the backlog, a claim takes exactly the first n, by priority descending, run_at and id, of the pre-state rows that are due or lapsed, unexpired and under budget, minus those whose promotion the cap deferred |
| Claims.ClaimExactIff | honker-core/src/honker_ops.rs:867-951 | the claim is the plain first n eligible rows if and only if no deferred row ranks among them |
| Claims.ClaimExactUnderCap | honker-core/src/honker_ops.rs:1048-1093 | with at most 1000 due scheduled rows the claim is exactly the first n eligible rows of the queue |
| Claims.AvailableFrom | honker-core/src/honker_ops.rs:1245-1250 | from which clock reading on a new, claimed or retried row can be handed out |
| Claims.HeartbeatMovesOnlyTheLease | honker-core/src/honker_ops.rs:1777-1822 | a heartbeat holds the job exactly until now + extend and leaves claim time, token and everything else alone |
| Claims.OthersUntouched | honker-core/src/honker_ops.rs:1234-1846 | an operation changes only the jobs it names, or those of its queue; every other job keeps its live or dead row |
| Claims.DeadRowSays | honker-core/src/honker_ops.rs:967-998 | a dead row keeps the job, run_at and attempts of the row that died, its clock reading and the caller's error; sweeps say "expired" or "max attempts exceeded" only when that is so |
| Claims.BoundedProgress | honker-core/src/honker_ops.rs:867-908 | with S due scheduled rows and an eligible job, one of the first max(1, ceil(S/1000)) claims returns a job, however many expired or exhausted rows are queued |
| Claims.CallsNeededIsCeil | honker-core/src/honker_ops.rs:867-867 | the number of claims in that bound is max(1, ceil(S/1000)) |
| Rows.ClaimIs | honker-core/src/honker_ops.rs:867-951 | a claim, whole and on the pre-state rows: it promotes the first 1000 due scheduled rows by run_at and id, buries the first 1000 expired ones nobody holds by expiry and id, then the first 1000 remaining lapsed leases with no attempts left by lease and id, takes the first n open rows it can reach by priority descending, run_at and id, writes exactly the claim's columns, and leaves every other row alone |
| Rows.ClaimsClearBacklog | honker-core/src/honker_ops.rs:867-908 | claims at one clock reading bury every expired row and every spent lease of the queue once there is one claim per thousand of either |
| Rows.EnqueueWrites | honker-core/src/honker_ops.rs:1234-1275 | an enqueue or tick fails exactly for a budget below 1, and else adds one row per job with the columns the insert gives it, scheduled exactly when its run_at is ahead |
| Rows.SweepWrites | honker-core/src/honker_ops.rs:1841-1846 | a sweep buries exactly the expired rows of its queue that are not held under an unexpired lease |
| Rows.CancelWrites | honker-core/src/honker_ops.rs:1615-1645 | a cancel removes the job in any state, unless it is in another queue than the one asked for |
| Rows.AckWrites | honker-core/src/honker_ops.rs:1284-1318 | an ack removes the row exactly if it is the caller's: by worker and unexpired lease, or by worker, token and state |
| Rows.FailWrites | honker-core/src/honker_ops.rs:1551-1606 | a fail buries the row with the caller's error exactly under the same guards |
| Rows.HeartbeatWrites | honker-core/src/honker_ops.rs:1777-1822 | a heartbeat sets the lease to now + extend exactly under those guards and the processing state, and writes no other column |
| Rows.RetryWrites | honker-core/src/honker_ops.rs:1371-1411 | the UPDATE of a retry hits exactly with attempts left and its DELETE exactly without, and the released row is unheld, due after the delay, and scheduled exactly for a positive one |
| Jobs.StepIsLegal | honker-core/src/honker_ops.rs:967-998 | every committed operation moves every job along one automaton: who may touch it, in which state, at which clock, and what row or dead row results |
| Jobs.StepKeepsSound | honker-core/src/honker_ops.rs:895-903 | every operation keeps the row shape, the disjointness of the tables and the id range |
| Jobs.ExecSucceedsIff | honker-core/src/honker_ops.rs:2530-2537 | on reachable tables an operation rolls back by itself only for a job budget below 1; the dead table never refuses a move |
| Runs.RunIsSound | honker-core/src/honker_ops.rs:895-903 | every state of every run is sound, whatever failed on the way |
| Runs.RowShape | honker-core/src/honker_ops.rs:900-903 | in every run pending and scheduled rows are unheld and under budget, pending ones due, processing ones hold worker, lease and claim time and 1 to max_attempts attempts |
| Runs.UnfencedRemovesOnlyProcessing | honker-core/src/honker_ops.rs:1284-1291 | the unfenced ack and fail, which omit the state check, only remove processing rows |
| Runs.Conservation | honker-core/src/honker_ops.rs:967-998 | after any run from an empty database each id is in exactly the place its own history says: unissued, live, dead, acked or cancelled; rows carry the enqueued job and as many attempts as claims, within budget |
| Runs.NeverReenters | honker-core/src/honker_ops.rs:1585-1645 | a job that left the live table never returns and its dead row never changes |
| Runs.FencedIffNotEnded | honker-core/src/honker_ops.rs:1303-1316 | through any run a claim is current if and only if no step since ended it |
| Runs.FencedCallsWorkIffNotEnded | honker-core/src/honker_ops.rs:1303-1316 | the fenced ack, fail, heartbeat and retry with a claim's token find a row, at any clock, if and only if no step ended that claim |
| Runs.UnfencedCallsWorkIffLeased | honker-core/src/honker_ops.rs:1284-1391 | after a claim or heartbeat gave a worker a lease, through any run that neither ends nor extends the claim, the unfenced ack, batch ack, fail, heartbeat and retry find the row if and only if the caller is that worker and the clock is not past the lease |
| Runs.AtMostOneCompletion | honker-core/src/honker_ops.rs:1303-1606 | a claim is consumed by at most one successful completion, fenced or not, even when worker ids repeat |
| Runs.LeaseIsSafe | honker-core/src/honker_ops.rs:872-951 | while a lease is unexpired only its holder's own calls or a cancel change or remove the row |
| Runs.ClaimsAreSeparated | honker-core/src/honker_ops.rs:924-951 | two claims of a job are separated by a retry or by a lapsed lease |
| Retry.RetryIsLinearizable | honker-core/src/honker_ops.rs:1371-1487 | under every interleaving of its three statements with other operations and faults, a retry has exactly the effect and result of one atomic retry at one of its statements, and an error changes nothing |
| AckBatches.BatchIsAckEach | honker-core/src/honker_ops.rs:1106-1132 | the batch statement leaves the table and reports the count of acking its elements one by one, each by its own form, duplicates included |
| NextClaim.NoJobBefore | honker-core/src/honker_ops.rs:1149-1182 | right after an empty claim at t, every claim before the returned T is empty, and 0 means every later claim is |
| NextClaim.ExactWithoutExpiry | honker-core/src/honker_ops.rs:1149-1182 | if no row of the queue expires, the claim at T returns a job, whatever empty claims came before |
| NextClaim.AnswerHoldsIff | honker-core/src/honker_ops.rs:1149-1182 | nothing is claimable from now until the answer if and only if a waiting row is due now or no claimable lease has already lapsed |
| NextClaim.NowIffDue | honker-core/src/honker_ops.rs:1173-1182 | the answer is the current time if and only if a claimable pending or scheduled row is due |
| NextClaim.AnswerIs | honker-core/src/honker_ops.rs:1149-1182 | on the rows themselves: now if a claimable pending row is due, else the least of the scheduled rows' run_at (or now) and one second past the held leases, over rows unexpired and under budget, else 0 |
| NextClaim.ExactAmongUnexpired | honker-core/src/honker_ops.rs:1149-1182 | with rows that expire the claims at T still return a job within the cap's bound, as long as none that was unexpired at the question expires by T |
| NextClaim.LapsedLeaseIsInvisible | honker-core/src/honker_ops.rs:1166-1171 | a concrete table on which a claimable job is reported as never |
| Stores.Store.Enqueue | honker-core/src/honker_ops.rs:1234-1275 | inserts the specified row under the next id, or changes nothing |
| Stores.Store.MoveSelected | honker-core/src/honker_ops.rs:967-998 | copies and deletes the same rows; the row-count mismatch never arises |
| Stores.Store.ClaimBatch | honker-core/src/honker_ops.rs:1048-1093 | whichever statements fail, the RELEASE included, the claim has its whole effect and returns the first n undeferred eligible rows, each held by the caller, or changes nothing |
| Stores.Store.AckMany | honker-core/src/honker_ops.rs:1106-1132 | deletes the matched rows and counts them |
| Stores.Store.FailJob | honker-core/src/honker_ops.rs:1585-1606 | moves the claim to the dead table or changes nothing, also when the insert after the delete or the RELEASE fails |
| Stores.Store.SweepExpired | honker-core/src/honker_ops.rs:1841-1846 | buries every expired row nobody holds, or changes nothing, also when the RELEASE fails |
| Stores.Store.RetryJob | honker-core/src/honker_ops.rs:1432-1487 | runs the three statements among other connections' commits exactly as the trace that is proved linearizable |
| Stores.Store.Perform | honker-core/src/honker_ops.rs:1048-1846 | whichever statements of any operation fail, the tables are those of the operation applied with or without a fault, and without failing statements only the operation's own error rolls it back |
| Atomicity.ScriptIsExec | honker-core/src/honker_ops.rs:967-1093 | a savepoint body whose statements all ran has done exactly what the operation does |
| Atomicity.ScriptRunsThrough | honker-core/src/honker_ops.rs:967-1093 | if no statement fails, the body runs to its end unless the operation is itself an error |
| Atomicity.Perform | honker-core/src/honker_ops.rs:123-280 | through `in_savepoint`, whichever commands fail or abort, an operation has its whole effect or none unless an undo failure is reported, or the engine ended the caller's own transaction; when nothing fails only the operation's own error does |
| Atomicity.PerformAll | honker-core/src/honker_ops.rs:123-280 | a whole run of operations on such a connection leaves the tables of a run of the model in which each call happened or faulted |
| Calendar.OrderIsInstantOrder | honker-core/src/cron.rs:193-197 | the order of date-times is the order of their linear seconds, and equal seconds are the same date-time |
| Calendar.SecondIsExact | honker-core/src/cron.rs:211-211 | adding a second carries through minutes, hours, days, months and leap years to exactly the next second |
| Calendar.KnownDays | honker-core/src/cron.rs:77-87 | the weekday numbering and the epoch agree with known dates |
| Calendar.InstantsAreOnto | honker-core/src/cron.rs:193-197 | every linear second is a valid date-time |
| Calendar.DayNumberIsRataDie | honker-core/src/cron.rs:193-197 | every date's day count is the closed form of the Gregorian calendar with years that begin in March, which uses no table of months |
| Calendar.ValidDateIff | honker-core/src/cron.rs:193-197 | a day is valid exactly if it lies between the first of its month and the first of the next by that closed form |
| Cron.NextOrFirst | honker-core/src/cron.rs:199-205 | the least member at or after the current value, or the first member and a wrap |
| Cron.Jump | honker-core/src/cron.rs:214-305 | each jump moves forward and skips no match; no jump means a match |
| Cron.NextAfter | honker-core/src/cron.rs:207-315 | returns the least matching date-time strictly after the start, fails exactly when none exists through the cap year, terminates, and never reaches its one-second fallback |
| Cron.NextMatchIff | honker-core/src/cron.rs:77-95 | the match searched for is, in civil terms, the first date-time after the start whose second, minute, hour, day, month and weekday are all named by the schedule |
| Cron.CapIs | honker-core/src/cron.rs:211-212 | the search covers the hundred years after the year of the second that follows the start |
| CronParse.ParseField | honker-core/src/cron.rs:131-178 | a field parses if and only if every comma-separated part does, to exactly the values start, start + step, ... of its parts, nonempty and in range |
| CronParse.ParsePartIff | honker-core/src/cron.rs:133-166 | a part's text parses to start, end and step if and only if it reads as a star, a number or two numbers with a dash, inside the bounds, with or without a slash and a positive step |
| CronParse.SplitIs | honker-core/src/cron.rs:133-133 | the parts of a field joined by the separator are the field, and none contains it |
| CronParse.DigitsAre | honker-core/src/cron.rs:97-104 | the digits of a number are the ten ASCII ones |
| CronParse.DecimalOf | honker-core/src/cron.rs:137-156 | digits are read in base ten, most significant first |
| CronParse.ParseCron | honker-core/src/cron.rs:50-75 | five or six fields parse exactly when each does; a five-field schedule fires at second 0; the result is well formed |
| CronParse.EveryIff | honker-core/src/cron.rs:97-129 | an interval parses to v if and only if it reads as digits and one of s, m, h, d, the count is at least 1 and v is the count times 1, 60, 3600 or 86400 and fits 63 bits |
| Zones.NextAfterUnix | honker-core/src/cron.rs:326-359 | in any zone the result is the earliest instant of the first shown local time at or after the next match; without folds it is the first firing instant strictly after the start, gaps mapping to their end; it fails exactly when no match is in range or the zone skips it and the century after; it is the calculator the scheduler results below are about |
| Zones.ChosenIsUnique | honker-core/src/cron.rs:345-358 | there is at most one next match and one local time the call can settle on |
| Zones.AnswerIsNextCron | honker-core/src/cron.rs:345-358 | a next match in range and the first local time shown from it on force the call's result |
| Zones.StrictIff | honker-core/src/cron.rs:345-347 | for one schedule the call's result is after the start if and only if the clock has not yet shown the local time it settles on |
| Zones.StrictForEveryScheduleIff | honker-core/src/cron.rs:345-347 | with folds of at most a day the call's result is after the start for every schedule if and only if the clock has never shown a later local time than at the start |
| Zones.FoldGoesBack | honker-core/src/cron.rs:347-347 | a concrete zone in which the call from instant 12 returns 8 |
| Zones.CronSkipLandsOnChain | honker-core/src/honker_ops.rs:2133-2169 | in any zone without folds the catch-up skip of a cron schedule lands on the chain that firing one by one reaches |
| Zones.CronFiresExactlyOnce | honker-core/src/honker_ops.rs:2133-2169 | in any zone without folds, a run of ticks that is never capped, failing ones included, delivers every firing instant of a cron schedule exactly once, in order, and no other |
| Scheduler.CatchUpInOrder | honker-core/src/honker_ops.rs:2133-2169 | a tick's fires start at next_fire_at, strictly increase, stay within the tick, number at most 64, and next_fire_at ends beyond the tick |
| Scheduler.FiresIncreaseAcrossTicks | honker-core/src/honker_ops.rs:2133-2169 | over any sequence of ticks the fire times of one schedule strictly increase and next_fire_at ends beyond every tick |
| Scheduler.FailuresLeaveNoTrace | honker-core/src/honker_ops.rs:2064-2068 | a run with failing ticks delivers what its committed ticks alone deliver |
| Scheduler.CatchUpFiresFirstBoundaries | honker-core/src/honker_ops.rs:2133-2169 | a tick fires exactly the first boundaries due, all of them or 64, and leaves next_fire_at on the first boundary after the tick |
| Scheduler.CapIs64 | honker-core/src/honker_ops.rs:2041-2169 | for any calculator a due task fires its boundaries in turn: all if at most 64 are due, ending on the next one, and else exactly 64, ending one step after the tick time |
| Scheduler.EveryBoundaryFiresOnce | honker-core/src/honker_ops.rs:2133-2169 | over any run of ticks never finding more than 64 due, failing ones included, the fires are exactly the boundaries passed, each once |
| Scheduler.SplitUnderCap | honker-core/src/honker_ops.rs:2133-2169 | with at most 64 due, ticking at t1 then t2 fires what ticking once at t2 does |
| Scheduler.SplitIffUnderCap | honker-core/src/honker_ops.rs:2041-2041 | that holds for every earlier t1 if and only if at most 64 boundaries are due |
| Scheduler.SkipLandsOnChain | honker-core/src/honker_ops.rs:2141-2148 | a least-boundary calculator skips onto the chain of iterated boundaries |
| Scheduler.EverySkipOnChainIff | honker-core/src/honker_ops.rs:2133-2169 | a tick of an interval leaves next_fire_at on its chain if and only if fewer than 64 steps had passed or the tick is a whole number of steps away |
| Scheduler.EverySkipLeavesChain | honker-core/src/honker_ops.rs:2141-2148 | every 2 seconds from 0, the tick at 129 moves next_fire_at to 131, off the chain |
| Ticks.FireIsAJob | honker-core/src/honker_ops.rs:2149-2163 | each fire is a live job of its task with the task's payload, priority, budget and expiry, claimable at the tick's one clock reading |
| Ticks.TickMeans | honker-core/src/honker_ops.rs:2086-2177 | a paused task or one whose time is ahead is untouched and fires nothing; any other fires from its next_fire_at on, at most 64 times, and ends beyond the tick |
| Ticks.NameLessIff | honker-core/src/honker_ops.rs:2125-2126 | the order of names is by code point at the first difference, a prefix first |
| Ticks.HistoryIsTaskRun | honker-core/src/honker_ops.rs:2106-2177 | over any run of tick calls on the table a task's fires are those of ticking that task alone, whatever other tasks do and whichever calls fail |
| Ticks.TaskFiresIncrease | honker-core/src/honker_ops.rs:2133-2169 | over any run of tick calls one task's fires strictly increase and stay below its next_fire_at |
| Ticks.CronTaskFiresExactlyOnce | honker-core/src/honker_ops.rs:2106-2177 | from the calendar to the task table: in any zone without folds a cron task fires at every firing instant up to its final next_fire_at exactly once, over any uncapped run of tick calls, whatever other tasks do and whichever calls fail |
| Ticks.Ticker.Tick | honker-core/src/honker_ops.rs:2106-2177 | a tick fires exactly its due boundaries in name order, one job each at one clock reading, and moves next_fire_at accordingly, or, also when the RELEASE fails, changes nothing; it succeeds exactly when every due schedule has a budget and a computable next fire |
| Savepoints.Connection.Undo | honker-core/src/honker_ops.rs:239-280 | command by command exactly when a failure is newly reported: if we own the transaction, only if the last-resort ROLLBACK fails too or a command aborts; if none is, the frame is rolled back and popped, or the engine's own rollback is left alone |
| Savepoints.Connection.InSavepoint | honker-core/src/honker_ops.rs:123-280 | for every entry stack, nested body that may go on after a nested failure, outcome and pattern of commands that fail or make the engine abort: success keeps exactly the body's writes, failed nested savepoints contributing none, and anything else restores tables, stack and autocommit, unless the engine rolled the caller's transaction back or an undo failure is reported; from the fates of the commands exactly how the call ends, with which tables, and whether an undo failure is reported |
| Migration.MigrationIsSound | honker-core/src/lib.rs:594-609 | processing rows untouched, ids conserved, exactly the waiting rows with attempts at or over budget buried, exactly the future pending ones rescheduled, no future pending row left, result sound for the queue |
| Migration.RaceIsSafe | honker-core/src/lib.rs:583-611 | for any number of processes in any interleaving the migration commits at most once and before any bootstrap returns success, and every later operation runs on sound tables |
| Migration.RaceFromStart | honker-core/src/lib.rs:583-611 | from a legacy database onwards, any bootstrap that returned success did so after the one commit, and until then the database is untouched |
| Migration.EachProcess | honker-core/src/lib.rs:583-611 | the first process to find the marker under the lock migrates and returns success, later ones return success and change nothing, a fault returns an error and changes nothing |
| Migration.MigrateClaimV2 | honker-core/src/lib.rs:583-611 | on a connection whose every command may fail, RELEASE and ROLLBACK included, the whole migration or nothing unless an undo failure is reported; on a legacy database it succeeds when nothing fails |
| Wakes.NeverLostIff | honker-core/src/lib.rs:970-1034 | in every interleaving of commits, checkpoints, polls of every outcome, reconnects, subscribers and readers, a parked live subscriber whose last read predates what the poller saw always has a tick pending if and only if each reconnect that reads the version finds nobody behind without a tick |
| Wakes.WakesAreNotLost | honker-core/src/lib.rs:970-993 | so it always has one when polls answer or are transiently locked |
| Wakes.EachSubscriber | honker-core/src/lib.rs:1201-1243 | through each event a subscriber is unlisted only by its own unsubscribe or by a wake that finds its receiver gone, and has a tick exactly if a wake reached it since it last took one |
| Wakes.EachSubscribe | honker-core/src/lib.rs:1231-1236 | only a subscribe adds a subscriber: under the next id, listed and live, with an empty channel |
| Wakes.StaysListed | honker-core/src/lib.rs:1201-1243 | a live subscriber stays listed through any run without its own unsubscribe or the loss of its receiver |
| Wakes.TickStays | honker-core/src/lib.rs:1201-1208 | a wake by a noticed change, a failed poll or a failed identity check leaves every live subscriber a tick until it takes it |
| Wakes.EachPoll | honker-core/src/lib.rs:970-1004 | when the poller is connected and which version it remembers, outcome by outcome |
| Wakes.PollWakesAll | honker-core/src/lib.rs:975-980 | after an answered poll every live parked subscriber that is behind has a tick, unless the 32-bit version came round or shows 0 after a reconnect that could not read it |
| Wakes.PollNoticesIff | honker-core/src/lib.rs:975-980 | with a version of its own per connection, moved by commits and checkpoints, a poll catches up if and only if the changes since the baseline are not a multiple of 2^32 |
| Wakes.ReconnectSafeIff | honker-core/src/lib.rs:994-1004 | a reconnect keeps the guarantee if and only if no live parked subscriber is behind without a tick |
| Wakes.ReconnectCanLoseAWake | honker-core/src/lib.rs:987-1004 | a concrete run in which a reconnect loses a wake |
| Wakes.SharedWatcher.OnChange | honker-core/src/lib.rs:1201-1208 | the fan-out gives every listed live subscriber a tick and prunes those whose receiver is gone |
| Wakes.SharedWatcher.SubscribeOne | honker-core/src/lib.rs:1231-1236 | hands out the next id with an empty capacity-1 channel |
| Wakes.SharedWatcher.UnsubscribeOne | honker-core/src/lib.rs:1241-1243 | unlists exactly that subscriber |
| Wakes.SharedWatcher.Poll | honker-core/src/lib.rs:970-1036 | one turn of the poll loop, with its identity check, is a step or two of the interleaving model |
| Sleepers.SleepsOnlyUntilPolled | packages/honker-rs/src/lib.rs:808-845 | whatever other connections commit and however the poller fares, a parked worker with a claimable job is about to wake by timer or tick, or some commit still waits for its poll |
| Sleepers.NoJobSleptThrough | packages/honker-rs/src/lib.rs:808-845 | the next answered poll settles it: the worker is about to wake, and its claims return a job within the bound of the promotion cap |
| Sleepers.PromptRunIsSafe | packages/honker-rs/src/lib.rs:808-845 | a worker that asks within the second of its empty claim always gets an answer it can sleep on, whatever others commit in between, as long as nobody sets a lease in the past |
| Sleepers.AskSafeIff | honker-core/src/honker_ops.rs:1149-1182 | for a worker with no tick waiting, parking on the answer leaves no job without a wake if and only if a waiting row is due or no claimable lease has lapsed |
| Sleepers.LateAskSleepsThrough | packages/honker-rs/src/lib.rs:808-845 | a concrete run in which a worker claims at 5, asks at 6 and parks for good over a job whose lease lapsed in between |
| ShmRegistry.RunIsSafe | honker-core/src/shm_watcher.rs:152-217 | over every run no descriptor is closed while its inode has a name or a watcher holds it, held descriptors stay open, an inode has at most one shared entry, and at most 256 are retained |
| ShmRegistry.RunFromStart | honker-core/src/shm_watcher.rs:137-141 | so it holds in every run of a process, whose registry starts empty |
| ShmRegistry.AcquireIsSafe | honker-core/src/shm_watcher.rs:175-217 | an acquire keeps those rules and hands out an open, held descriptor of the file opened or of the one file with the inode asked for |
| ShmRegistry.ReclaimedIff | honker-core/src/shm_watcher.rs:156-161 | the reclaim closes and drops exactly the open descriptors nobody holds whose file is known to have no name left |
| ShmRegistry.AcquireSucceedsIff | honker-core/src/shm_watcher.rs:175-217 | an acquire succeeds if and only if the descriptor is on file, or fewer than 256 are left and the path opens |
| ShmRegistry.AcquireShares | honker-core/src/shm_watcher.rs:175-217 | a path on file is answered with that descriptor and nothing is opened; else one is opened, and acquiring the same file again finds it |
| ShmRegistry.AcquireCounts | honker-core/src/shm_watcher.rs:175-217 | an acquire adds one clone of its answer and changes no other count |
| ShmRegistry.WinnerIsSameFile | honker-core/src/shm_watcher.rs:204-210 | after a lost open race the shared descriptor returned is open on the same file |
| ShmRegistry.ReopenKeepsOldOpen | honker-core/src/shm_watcher.rs:385-398 | a watcher that reopens its header keeps every rule, and neither the descriptor it replaces nor the one it keeps is closed |
| ShmRegistry.ReopenMovesOneClone | honker-core/src/shm_watcher.rs:385-398 | a reopen that succeeds moves the watcher's one clone to the new descriptor; one that does not changes no count |
| ShmRegistry.ShmFdRegistry.ReclaimUnlinked | honker-core/src/shm_watcher.rs:156-161 | keeps exactly the held or still linked descriptors and closes the rest |
| ShmRegistry.ShmFdRegistry.AcquireShmFd | honker-core/src/shm_watcher.rs:175-217 | the locked procedure is the acquire of the run model |

## Left out

- SQLite itself: query plans, indexes, WAL, busy handling and snapshots; only the
  result sets of the statements matter.
- 64-bit overflow of clock arithmetic (`now + delay`, `now + timeout`): times are
  unbounded integers, except in the interval and `u32` parsing rules.
- Separate `unixepoch()` readings behind the `created_at` and `died_at` column
  defaults: they equal the operation's own clock reading.
- Scalar-function registration, JSON text, row decoding failures other than as
  failing statements, and REAL-to-integer coercion.
- NextClaim.NoJobBefore: takes a clock reading above 0, because the answer 0 is reserved for "nothing to wait for".
- NextClaim.ExactWithoutExpiry: takes a clock reading above 0, for the same reason.
- NextClaim.AnswerHoldsIff: takes a clock reading above 0, for the same reason.
- Zones.StrictForEveryScheduleIff: takes folds of at most a day, which covers every fold on record.
- Savepoints.Connection.InSavepoint: promises nothing of a body that goes on after the engine itself rolled the transaction back, except that undo failures stay reported; and says from the fates exactly how a call ends only when no command aborts.
- Stores.Store.ClaimBatch: its rollback succeeds; a ROLLBACK that fails is the subject of `Atomicity.Perform`.
- Stores.Store.FailJob: its rollback succeeds, as above.
- Stores.Store.SweepExpired: its rollback succeeds, as above.
- Ticks.Ticker.Tick: its rollback succeeds; a failing ROLLBACK is covered for the job inserts of a tick by `Atomicity.Perform`, not for the task table.
- Sleepers.NoJobSleptThrough: takes a clock above 0 and, like the lemmas beside it, no part of the bindings' `idle_poll_s` fallback, which only adds wakes.
- Splitting an expression at whitespace and trimming it; error message texts.
- chrono's year limits and invalid timestamps; time-zone database contents, since
  a zone is any pair of coherent functions.
- Registering, pausing, resuming, updating and listing schedules: single-row
  upserts.
- Closing the shared watcher, its death guard and the panic on a replaced database
  file.
- The `-shm` header read, the kernel watcher and file identity: operating-system
  behaviour.
- Writer and reader pools, locks, rate limits, results, streams and notify, and
  all language bindings but the wait loop of `ClaimWaker`: short claims or thin
  wrappers.
