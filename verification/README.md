# A verified model of the autoscaler

This project models the stateful components of the Cloud Foundry autoscaler in Dafny and proves what they keep over
every run. `dafny verify dfyconfig.toml` checks all of it.

| file | what it models |
|---|---|
| `Common.dfy`, `Decimals.dfy` | an option type, nanoseconds, picking an element of a set; printing and reading numbers |
| `TimeSeries.dfy`, `TSDCache.dfy` | the sorted ring cache of a time series: a reference on plain sequences, and the ring with its in-place shift |
| `AppManager.dfy`, `MetricCollector.dfy` | the two services that answer metric queries from caches or the database |
| `Evaluator.dfy` | breach evaluation of triggers on top of such queries |
| `LockTable.dfy`, `DatabaseLock.dfy`, `LeaseSafety.dfy` | the lease table and its transactions, the runner that uses it, and any number of runners together |
| `Scaling.dfy`, `ScalingEngine.dfy`, `EngineOperations.dfy` | the scaling arithmetic, the engine's three operations interleaved statement by statement, and the same operations as written |
| `ScheduleSync.dfy` | one reconciliation pass of active schedules, its calls running concurrently on that engine |
| `SortedPairs.dfy`, `Overlap.dfy` | the overlap checks of the scheduler (Java) and of the API server (JavaScript) |
| `Scheduler.dfy`, `PolicySync.dfy` | the scheduler's tables and Quartz jobs, and their synchronisation with the policies |
| `EnvelopeProcessor.dfy`, `Sharding.dfy` | request accounting of one envelope processor, and of all of them behind a hash |

Each imperative component is a class whose methods are proved against functions of the old state; the theorems are about
those functions and about runs built from them. Tables are maps, a hash is an arbitrary function, time is an integer,
and whatever a call to the outside may answer is a parameter: `Fault` for the lease transactions, `Oracle` for the
engine's statements, `Answer` for the metric database.

## What was found

- `Query` says a hit guarantees that all data are in the cache. A full cache whose oldest point is exactly at `start` may
  have evicted other points at `start`. `HitGuarantee` gives the exact condition, and `HitAgreesUnlessTieEvicted` what it
  means for `QueryAppMetrics`.
- `Lock` returns "acquired" together with an error exactly when all its attempts fail to begin, or to commit what they
  were about to grant (`AcquiredWithError`), and the first call of a runner closes `ready` regardless of the error.
  `LeaseMutualExclusion` therefore needs the hypothesis `CleanFirstCall`. `ExclusionExactlyIf` says for every run exactly
  when two runners are ready. There are two ways: a failed first call while another holds the lock
  (`FailedBeginBreaksExclusion`), and a clean call after a failed first one has left a runner ready without a row
  (`NoRowBreaksExclusion`).
- The flag of `Lock` is captured across retries, so a retried call may answer "not acquired" while the row is the
  caller's (`RowWithoutBeingTold` says when; `RefusalOutlivesRetry` is such a run).
- A renewal does not update the ttl of a row, so a process that finds its own row with another ttl keeps that one
  until the row is lost (`RowShowsTtl`; `RenewalKeepsOldTtl` is an example); its lease is what the row shows (`Lease`).
- An `end` below -1 means now to the database and itself to the cache; `AgreementForAnyEnd` says when that shows.
- A percentage below -100 may round towards zero, not to the nearest (`PercentRoundsToNearest`, `BelowAllRoundsUp`).
- A second `Sync` is silent only if no wanted schedule has the empty id (`NextPassIsSilent`).
- `Sync` compares ids only: a row with the right id and other limits than the scheduler's stays as it is
  (`PassReconciles`).
- A row without an owner counts as nobody's: a caller is told it has the lock and has no row (`EmptyOwnerStopsNobody`).
- A start job checks for conflicts and stores its row and end job in separate steps. Consistency survives exactly as
  long as every step is harmless (`ConsistentExactlyIf`): a second firing of the app or a deletion in between is not
  (`OverlapIff`, `DeletionBeforeStore`; `OverlappingFiringsLeaveAnEndJob` is an example).

## Model

| member | source | states |
|---|---|---|
| TimeSeries.RetainedIsTopK | src/autoscaler/collection/TSDCache.go:59-87 | top-k: after any Puts in any order the points held are sorted, min(number of Puts, capacity) many, a sub-multiset of the Puts, and no evicted point is later than a held one |
| TimeSeries.ArrivalOrderIsIrrelevant | src/autoscaler/collection/TSDCache.go:59-87 | the timestamps held are the last `capacity` of any sorting of the Puts, whatever the order they arrived in |
| TimeSeries.RetainedIsLastOfMerged | src/autoscaler/collection/TSDCache.go:59-87 | trimming at every Put holds the very points that merging all Puts and trimming once would |
| TimeSeries.TrimThenInsert | src/autoscaler/collection/TSDCache.go:67-86 | one trimmed insertion loses nothing that a later trim would keep |
| TimeSeries.MergedProperties | src/autoscaler/collection/TSDCache.go:67-86 | repeated insertion at the lower bound yields a sorted permutation of the Puts |
| TimeSeries.LowerBoundUnique | src/autoscaler/collection/TSDCache.go:33-57 | the position the search promises is the only one with smaller stamps before it and none after |
| TimeSeries.SelectAllCounts | src/autoscaler/collection/TSDCache.go:120-129 | a selection holds each wanted point exactly as often as the series, and no other |
| TimeSeries.SelectSorted | src/autoscaler/collection/TSDCache.go:120-129 | a selection keeps time order |
| TimeSeries.CompleteIffNothingWantedEvicted | src/autoscaler/collection/TSDCache.go:111-136 | the held points answer a query as all points ever put would if and only if no wanted point was evicted |
| TimeSeries.HitMissesOnlyTies | src/autoscaler/collection/TSDCache.go:132-135 | on a hit a missing point has the timestamp of both the start asked for and the oldest held point |
| TimeSeries.HitGuarantee | src/autoscaler/collection/TSDCache.go:109-136 | when a hit promises completeness: for all histories that leave the same points, if and only if nothing was evicted, or the oldest point is strictly before start, or the range is empty |
| TimeSeries.LossyHistoryLoses | src/autoscaler/collection/TSDCache.go:132-135 | the failing family: for any held points tied with start a history exists that lost a wanted point |
| TSDCaches.TSDCache.constructor | src/autoscaler/collection/TSDCache.go:21-31 | a new cache is valid and empty |
| TSDCaches.TSDCache.BinarySearch | src/autoscaler/collection/TSDCache.go:33-57 | terminates, on the rotated array, at the head plus the lower bound of the time in the points held |
| TSDCaches.TSDCache.Put | src/autoscaler/collection/TSDCache.go:59-87 | the ring holds the old points with the new one inserted, cut to the last `capacity`, and stays what the history of Puts says |
| TSDCaches.TSDCache.PutRing | src/autoscaler/collection/TSDCache.go:67-86 | the three branches of Put on the ring itself |
| TSDCaches.TSDCache.PutEarlier | src/autoscaler/collection/TSDCache.go:73-86 | a point earlier than the newest: search, then drop or shift |
| TSDCaches.TSDCache.Append | src/autoscaler/collection/TSDCache.go:67-71 | a point not earlier than the newest overwrites the oldest slot |
| TSDCaches.TSDCache.Drop | src/autoscaler/collection/TSDCache.go:74-76 | a point that would come first in a full ring leaves the points as they are, and Put counts it |
| TSDCaches.TSDCache.InsertAt | src/autoscaler/collection/TSDCache.go:78-86 | shift across the wrap point: the ring reads as the old points with the new one spliced in, cut to capacity |
| TSDCaches.TSDCache.ShiftIn | src/autoscaler/collection/TSDCache.go:82-85 | slot by slot: what the in-place shift from the end down to pos leaves in the array |
| TSDCaches.ViewAfterShift | src/autoscaler/collection/TSDCache.go:78-86 | a shifted array read from its oldest slot is the splice cut to capacity |
| TSDCaches.RingAfterDrop | src/autoscaler/collection/TSDCache.go:73-76 | a point placed before all others of a full ring would be cut off at once, so dropping it is the insertion |
| TSDCaches.TSDCache.Query | src/autoscaler/collection/TSDCache.go:113-136 | in order exactly the held points in [start, end) with the labels; hit if and only if the oldest is not after start; on a hit only evicted ties at start are missing |
| TSDCaches.TSDCache.Collect | src/autoscaler/collection/TSDCache.go:120-129 | two searches and a loop select the wanted points |
| TSDCaches.TSDCache.Scan | src/autoscaler/collection/TSDCache.go:123-129 | the loop between the two bounds selects the wanted points |
| TSDCaches.WrapIsRemainder | src/autoscaler/collection/TSDCache.go:52 | the wrapped index is the remainder by the capacity |
| AppManagers.AppManager.SaveMetricToCache | src/autoscaler/eventgenerator/aggregator/appManager.go:132-142 | true if and only if the app has a cache, whose Puts then grow by the metric |
| AppManagers.AppManager.QueryAppMetrics | src/autoscaler/eventgenerator/aggregator/appManager.go:144-171 | if the app has a cache and its oldest point is not after start: exactly the points held with the label name = metricType in the inclusive range, each as often as held, in the order asked for; otherwise the answer of the database |
| AppManagers.QueryCache | src/autoscaler/eventgenerator/aggregator/appManager.go:153-170 | the same for an app that has a cache |
| AppManagers.CopyOut | src/autoscaler/eventgenerator/aggregator/appManager.go:157-166 | index by index the result, from the other end for descending order |
| AppManagers.SelectionOfPoints | src/autoscaler/eventgenerator/aggregator/appManager.go:153-170 | the points a selection returns are those held with that name label in the inclusive range, each as often as held, in order |
| AppManagers.SameAnswerIff | src/autoscaler/eventgenerator/aggregator/appManager.go:153-170 | of points that are among the rows, an answer to an earlier end is an answer of the rows if and only if each row the longer range finds is held and not after the earlier end |
| AppManagers.HitIsDatabaseAnswer | src/autoscaler/eventgenerator/aggregator/appManager.go:153-170 | a hit is an answer the database could give (same multiset, same order) if and only if every row it would return is cached and within the end the cache was asked for |
| AppManagers.FreshCacheAnswersLikeDatabase | src/autoscaler/db/sqldb/appmetric_sqldb.go:103-144 | with end at least -1 and every uncached row older than the oldest cached one, a hit is a database answer |
| AppManagers.HitAgreesUnlessTieEvicted | src/autoscaler/eventgenerator/aggregator/appManager.go:144-171 | if the rows are the points ever put, a hit agrees with the database if and only if no evicted point of the type sits at start, unless the range is empty, and the end is at least -1 or nothing lies after it |
| AppManagers.AgreementForAnyEnd | src/autoscaler/db/sqldb/appmetric_sqldb.go:111-113 | a fresh covering cache agrees with the database if and only if the end is at least -1 or no row of the type lies between it and now |
| AppManagers.NegativeEndDisagrees | src/autoscaler/db/sqldb/appmetric_sqldb.go:111-113 | such a row, for an end of -2 |
| AppManagers.InOrderIsOrdered | src/autoscaler/eventgenerator/aggregator/appManager.go:157-166 | either order is sorted that way and holds the same points |
| MetricCollectors.MetricCollector.RefreshApps | src/autoscaler/metricsserver/collector/collector.go:90-121 | exactly the apps hashed to this node; kept apps keep their very caches, others lose them, new ones get empty caches apart from all others; a failing database changes nothing |
| MetricCollectors.MetricCollector.SaveMetricToCache | src/autoscaler/metricsserver/collector/collector.go:227-237 | true if and only if the app has a cache, whose Puts then grow by the metric |
| MetricCollectors.MetricCollector.QueryMetrics | src/autoscaler/metricsserver/collector/collector.go:138-172 | on a hit, or when nothing is persisted, exactly the points held with the asked name and instance labels in the inclusive range; on a miss otherwise the answer of the database; without a cache and persistence nothing |
| MetricCollectors.QueryCached | src/autoscaler/metricsserver/collector/collector.go:147-171 | the same for an app that has a cache |
| MetricCollectors.CollectedFromPoints | src/autoscaler/metricsserver/collector/collector.go:147-171 | each point asked for as often as held, and no other |
| MetricCollectors.NewCaches | src/autoscaler/metricsserver/collector/collector.go:114-118 | an empty cache for each new app, no two sharing memory |
| MetricCollectors.QuerySelectsInstance | src/autoscaler/metricsserver/collector/collector.go:148-151 | a query finds the points of its name and, unless the index is negative, of its instance only |
| Decimals.DecimalInjective | src/autoscaler/metricsserver/collector/collector.go:150 | different instance indices never share a label |
| Decimals.ParseIntOfDecimal | src/autoscaler/eventgenerator/generator/evaluator.go:99 | reading a printed number, with either sign, gives it back, as far as 64 bits go |
| Decimals.SomeNumbers | src/autoscaler/eventgenerator/generator/evaluator.go:99 | what a few texts are read as; an empty text, a lone sign, a fraction and a word are no numbers |
| Evaluators.RetrieveAppMetrics | src/autoscaler/eventgenerator/generator/evaluator.go:153-180 | asks for the last two breach durations and returns the reversed window, or nothing if no metric is older than it; no window if the query fails |
| Evaluators.ScanBack | src/autoscaler/eventgenerator/generator/evaluator.go:165-174 | the backward scan with early exit finds the window |
| Evaluators.WindowDecides | src/autoscaler/eventgenerator/generator/evaluator.go:92-131 | looking at that window decides the declarative breach condition on all metrics returned |
| Evaluators.InWindow | src/autoscaler/eventgenerator/generator/evaluator.go:154-156 | a metric is in the window if and only if it is no older than the breach duration in seconds, and in the query if no older than two |
| Evaluators.OperatorsMean | src/autoscaler/eventgenerator/generator/evaluator.go:92-131 | a number violates > or < strictly beyond the threshold, >= or <= also at it; what is not a number, or has no valid operator, does not violate |
| Evaluators.BreachedMeans | src/autoscaler/eventgenerator/generator/evaluator.go:71-180 | breached, in nanoseconds: the query for the last two durations finds a metric older than one duration and one not older, and every one not older violates |
| Evaluators.AllViolate | src/autoscaler/eventgenerator/generator/evaluator.go:92-131 | true if and only if every metric parses and is on the wrong side of the threshold |
| Evaluators.IsValidOperator | src/autoscaler/eventgenerator/generator/evaluator.go:221-228 | true exactly for the four operators |
| Evaluators.Evaluate | src/autoscaler/eventgenerator/generator/evaluator.go:78-135 | breached if and only if the operator is valid, a metric is older than the window, one is inside, and every one inside violates |
| Evaluators.DoEvaluate | src/autoscaler/eventgenerator/generator/evaluator.go:71-151 | alarms the first breached trigger, if one exists, and no other; for it the query of the last two durations found an oldest metric older than one duration, a newest within it whose unit the alarm carries, and within it only violations; triggers up to it get their default duration, later ones stay |
| Evaluators.AnswerOrderIsIrrelevant | src/autoscaler/eventgenerator/generator/evaluator.go:153-180 | any order the database may return ties in gives the verdict of the rows |
| Evaluators.CacheVerdict | src/autoscaler/eventgenerator/generator/evaluator.go:158 | whatever the cache holds, the query answered as QueryAppMetrics does gives the verdict of the rows, on a hit and on a miss, if the uncached rows are older than the oldest cached one |
| LockTables.LockSQLDB.LockBody | src/autoscaler/db/sqldb/lock_sqldb.go:141-198 | the body of the transaction is the state change LockAttempt |
| LockTables.LockSQLDB.LockTransaction | src/autoscaler/db/sqldb/lock_sqldb.go:216-235 | begin, body, commit or roll back: all of the attempt or nothing of it |
| LockTables.LockSQLDB.Lock | src/autoscaler/db/sqldb/lock_sqldb.go:138-201 | ends at the first attempt without a bad connection or at the third; acquired if and only if no attempt was refused; error and table are those of the last; acquired without an error, the only row is the caller's with the time of the last attempt |
| LockTables.LockSQLDB.Release | src/autoscaler/db/sqldb/lock_sqldb.go:125-136 | a release that ends without an error has removed the caller's row; one that fails to begin or to delete has changed nothing, one that fails to commit either; the rows of others are as found; repeated on bad connections, at most three attempts |
| LockTables.LockKeepsOneRow | src/autoscaler/db/sqldb/lock_sqldb.go:138-201 | with a named owner the table keeps at most one row, whatever fails |
| LockTables.ReleaseKeepsOneRow | src/autoscaler/db/sqldb/lock_sqldb.go:125-136 | so does a release, which leaves the rows of others alone |
| LockTables.TakenOnlyWhenExpired | src/autoscaler/db/sqldb/lock_sqldb.go:160-168 | another's Lock leaves an owner's row unchanged, or removes it strictly after timestamp plus ttl |
| LockTables.FaultFreeLock | src/autoscaler/db/sqldb/lock_sqldb.go:138-201 | without a fault, and without a row of its own, the caller is refused if and only if another's timestamp plus ttl in seconds is not before now; else the only row is the caller's with its ttl |
| LockTables.FaultFreeRenewal | src/autoscaler/db/sqldb/lock_sqldb.go:110-123 | without a fault the caller that has the row keeps it, with the new time and its old ttl |
| LockTables.FaultsRollBack | src/autoscaler/db/sqldb/lock_sqldb.go:138-235 | all or nothing: a failing statement the transaction comes to leaves the table unchanged and refuses the caller, unless it is the begin; a failing commit has done what the transaction would have done without it, or nothing; in both cases the error is reported |
| LockTables.ReleaseFreesLock | src/autoscaler/db/sqldb/lock_sqldb.go:125-201 | after a release without an error the next caller gets the lock at its first attempt |
| LockTables.EmptyOwnerStopsNobody | src/autoscaler/db/sqldb/lock_sqldb.go:151-152 | a row of the empty owner is taken for a lock of the caller's own: no row is written, yet the caller is told acquired |
| LockTables.LockMeansRow | src/autoscaler/db/sqldb/lock_sqldb.go:138-201 | acquired without error: the only row is the caller's, with the time of the last attempt, even across retries |
| LockTables.AcquiredWithError | src/autoscaler/db/sqldb/lock_sqldb.go:138-247 | a call says acquired together with an error exactly when every attempt it made failed to begin, or failed to commit what it was about to grant |
| LockTables.RowWithoutBeingTold | src/autoscaler/db/sqldb/lock_sqldb.go:138-247 | after a call that ends without an error the caller has a row exactly when nobody else had a lease that ran at the last attempt, and is nevertheless told no exactly when an earlier attempt failed in any way but to begin or to commit what it was about to grant |
| LockTables.RefusalOutlivesRetry | src/autoscaler/db/sqldb/lock_sqldb.go:140-149 | a run of that kind |
| DatabaseLocks.DatabaseLock.InitDBLockRunner | src/autoscaler/sync/dblock.go:24-79 | over any events: ready is closed at most once, and if and only if the first call or one before the end acquired the lock; the loop goes on exactly through calls without an error, returns at a signal, ends its process at a failed call, and either way has released once |
| DatabaseLocks.RunConsistent | src/autoscaler/sync/dblock.go:42-76 | until it exits the runner waits for the lock exactly if it has not closed ready |
| DatabaseLocks.ReadyClosedOnce | src/autoscaler/sync/dblock.go:70-74 | once closed, ready is never closed again |
| LeaseSafety.TableAlwaysSafe | src/autoscaler/db/sqldb/lock_sqldb.go:57-201 | in every reachable state, whatever fails and crashes: at most one row, and no runner has closed ready twice since it started |
| LeaseSafety.RowLostOnlyWhen | src/autoscaler/db/sqldb/lock_sqldb.go:125-201 | in every run a row disappears only by its owner's release or by another's attempt strictly after timestamp plus ttl |
| LeaseSafety.RowStays | src/autoscaler/db/sqldb/lock_sqldb.go:110-201 | in one step of any process a row that stays is unchanged, but for the time of its owner's renewal |
| LeaseSafety.ReleaseLetsNextIn | src/autoscaler/sync/dblock.go:48-51 | in any state with at most one row: after a step in which a process releases without a fault, another process that asks without a fault becomes ready |
| LeaseSafety.CallEndsLikeLock | src/autoscaler/sync/dblock.go:33-75 | in every run, whatever others do in between, a call is one of Lock: repeated on a bad connection, three attempts at most, acquired if and only if none was refused; the first call closes ready whatever its error, a later one if it was not closed and there is no error, and on an error starts to release |
| LeaseSafety.CallUnderWay | src/autoscaler/db/sqldb/lock_sqldb.go:216-235 | the attempts of a call under way all had a bad connection, two at most, and its flag says whether one was refused |
| LeaseSafety.ReleaseEnds | src/autoscaler/db/sqldb/lock_sqldb.go:125-136 | a release is repeated on a bad connection, three attempts at most; then the process has exited |
| LeaseSafety.RowShowsTtl | src/autoscaler/db/sqldb/lock_sqldb.go:95-123 | in every run a row shows its owner's ttl if and only if it did so at the start or has been missing in between: a renewal does not update it |
| LeaseSafety.RenewalKeepsOldTtl | src/autoscaler/db/sqldb/lock_sqldb.go:110-123 | a restarted process ready on a row with the ttl of its former start |
| LeaseSafety.LeaseMutualExclusion | src/autoscaler/sync/dblock.go:24-79 | any number of processes with a ttl each, any interleaving with crashes, restarts and takeovers, any first table: at most one process is ready, and its row is the only one, as long as first calls returned no error and ready processes renewed within their leases |
| LeaseSafety.RunPreserves | src/autoscaler/db/sqldb/lock_sqldb.go:138-201 | the invariant (one row, of the ready process, with its last renewal) holds as long as the two hypotheses did |
| LeaseSafety.TryLockPreserves | src/autoscaler/db/sqldb/lock_sqldb.go:138-201 | every attempt keeps it, whatever its fault |
| LeaseSafety.OthersRefused | src/autoscaler/db/sqldb/lock_sqldb.go:151-173 | while another process is ready and in time an attempt changes nothing and grants nothing without an error |
| LeaseSafety.ExclusionExactlyIf | src/autoscaler/sync/dblock.go:24-79 | in every run at most one process is ready in all states if and only if no step gets a process ready while another is |
| LeaseSafety.StepBreaksIff | src/autoscaler/sync/dblock.go:33-41 | the same for one step, from any state in which at most one is ready |
| LeaseSafety.GetsReadyIff | src/autoscaler/sync/dblock.go:33-75 | from any state a run can reach, a step makes a process ready if and only if its call ends unrefused and either it is the first and fails to begin, or nobody else has a lease that runs and no statement fails, but for the commit of a first call |
| LeaseSafety.GoesThroughIff | src/autoscaler/db/sqldb/lock_sqldb.go:138-235 | an attempt is not refused if and only if it fails to begin, or nobody else has a lease that runs and no statement before the commit fails |
| LeaseSafety.SecondReadyIff | src/autoscaler/sync/dblock.go:33-41 | while the ready process owns its row: a second one gets ready if and only if the lease had run out, or its first call failed to begin, or failed to commit the takeover of a lapsed lease |
| LeaseSafety.NoRowBreaksExclusion | src/autoscaler/sync/dblock.go:33-41 | a run in which a first call that fails to begin makes a process ready without a row, and a later call without any fault a second one |
| LeaseSafety.FailedBeginBreaksExclusion | src/autoscaler/sync/dblock.go:33-41 | a run in which a first call that fails to begin makes two processes ready |
| Scaling.MovesInDirection | src/autoscaler/scalingengine/scalingengine.go:188-216 | the new count differs from the old one strictly in the direction of the adjustment, and only then |
| Scaling.PercentRoundsToNearest | src/autoscaler/scalingengine/scalingengine.go:196-204 | a percentage rounds to the nearest count, or moves by one if that would not move, if and only if the count asked for is at least -0.5 or halfway between two |
| Scaling.BelowAllRoundsUp | src/autoscaler/scalingengine/scalingengine.go:196 | 2 instances and -180 percent give -1, where -2 is nearest |
| Scaling.WithinLimitsAtOnce | src/autoscaler/scalingengine/scalingengine.go:151-157 | one round sets the computed count if it is within the limits, else the limit it exceeds; a step moves by its number of instances |
| Scaling.StepsAddUp | src/autoscaler/scalingengine/scalingengine.go:206-213 | within the limits, n rounds of a step of k instances end at the count plus n times k, cut to the limits |
| Scaling.ScaleOnceApproaches | src/autoscaler/scalingengine/scalingengine.go:111-166 | every round not at the limit comes strictly closer to it; at the limit it stays |
| Scaling.RepeatedScalingConverges | src/autoscaler/scalingengine/scalingengine.go:111-166 | repeated rounds reach the limit within as many steps as there are counts between, and stay |
| ScalingEngine.StepKeepsChain | src/autoscaler/scalingengine/scalingengine.go:53-186 | a statement keeps the history replaying to the count, but for the change whose entry is still to be saved, if and only if it does not lose the entry of a change and does not fail to set instances with an effect |
| ScalingEngine.StepKeepsCooldown | src/autoscaler/scalingengine/scalingengine.go:95-109 | every statement, failing or not, keeps each cooldown written in the table or over; a scaling it offers to the history has found all of them over |
| ScalingEngine.LostEntryShows | src/autoscaler/scalingengine/scalingengine.go:69 | at the save of a change: the history replays to the count if and only if the entry is saved |
| ScalingEngine.MutualExclusion | src/autoscaler/scalingengine/striped_lock.go:27-34 | two threads at work on one app are the same thread, for any assignment of stripes |
| ScalingEngine.NothingBlocks | src/autoscaler/scalingengine/scalingengine.go:56-57 | in every state of every run a stripe is held only by a thread at work on an app of that stripe: each busy thread can go on or give its lock back, and an idle one can begin exactly if no busy one works on an app of the same stripe |
| ScalingEngine.NextHoldsLocks | src/autoscaler/scalingengine/scalingengine.go:56-57 | every step keeps each busy thread holding the stripe of its app |
| ScalingEngine.ProceedKeepsChain | src/autoscaler/scalingengine/scalingengine.go:53-186 | a statement of any thread keeps the chain of every app |
| ScalingEngine.BoundaryKeepsChain | src/autoscaler/scalingengine/scalingengine.go:56-57 | so do taking the lock, giving it back and the passing of time |
| ScalingEngine.ProceedKeepsCooldown | src/autoscaler/scalingengine/scalingengine.go:95-185 | a statement of any thread keeps that for every app |
| ScalingEngine.BoundaryKeepsCooldown | src/autoscaler/scalingengine/scalingengine.go:56-57 | so do taking the lock, giving it back and the passing of time |
| ScalingEngine.HistoryReplays | src/autoscaler/scalingengine/scalingengine.go:53-186 | under every interleaving, from any history that chains, with history saved and failing calls without effect, each app's successful entries chain and, with no operation at work, replay to its count |
| ScalingEngine.HistoryReplaysExactlyIf | src/autoscaler/scalingengine/scalingengine.go:53-186 | the two hypotheses are exact: all apps chain in all states of a run if and only if every entry of a change was saved and no call that set instances and failed took effect |
| ScalingEngine.HistoryReplaysFromEmpty | src/autoscaler/scalingengine/scalingengine.go:53-186 | from an empty history the entries chain from the counts found |
| ScalingEngine.ConsecutiveEntriesMeet | src/autoscaler/scalingengine/scalingengine.go:69 | entry by entry: a successful entry starts from the count the one before it left |
| ScalingEngine.CooldownsRespected | src/autoscaler/db/sqldb/scalingengine_sqldb.go:132-169 | under every interleaving, whatever fails, no successful dynamic scaling breaks into a cooldown written before it |
| ScalingEngine.ScalingsSpaced | src/autoscaler/scalingengine/scalingengine.go:95-109 | if the cooldown of a successful dynamic scaling was written, every later one checked strictly after its time plus its cooldown, whatever else failed and whatever scaled in between |
| ScalingEngine.HistoryIsSavedLog | src/autoscaler/scalingengine/scalingengine.go:69 | the saved history is that log of scalings without the entries whose save failed |
| EngineOperations.Engine.UpdateScalingCooldownExpireTime | src/autoscaler/db/sqldb/scalingengine_sqldb.go:156-169 | delete then insert: a failing insert leaves no row, success leaves the new one |
| EngineOperations.Engine.Scale | src/autoscaler/scalingengine/scalingengine.go:53-186 | as written, its outcome is that of its statements run one after the other; no other app is touched |
| EngineOperations.Engine.ScaleWithin | src/autoscaler/scalingengine/scalingengine.go:111-174 | its second half: limits, change, entry |
| EngineOperations.Engine.StartCooldown | src/autoscaler/scalingengine/scalingengine.go:176-185 | its end: the cooldown, then the entry |
| EngineOperations.Engine.SetActiveSchedule | src/autoscaler/scalingengine/scalingengine.go:218-294 | likewise for a schedule taking over |
| EngineOperations.Engine.RemoveActiveSchedule | src/autoscaler/scalingengine/scalingengine.go:296-378 | likewise for a schedule ending |
| EngineOperations.Engine.MoveWithin | src/autoscaler/scalingengine/scalingengine.go:353-377 | the end both schedule operations share: clamp, set, entry |
| EngineOperations.ScaleIsOneRound | src/autoscaler/scalingengine/scalingengine.go:53-186 | without failures Scale takes the limits of the active schedule, else of the policy, sets the clamped count (a step within them adds its instances), writes a cooldown of the given or default seconds in nanoseconds if it moved, keeps the schedule, and saves the full entry, Succeeded if it moved, else Ignored |
| EngineOperations.ScaleWithoutApp | src/autoscaler/scalingengine/scalingengine.go:77-93 | a Scale that cannot get the app fails, and is ignored if the app is not started; nothing changes |
| EngineOperations.ScaleInCooldown | src/autoscaler/scalingengine/scalingengine.go:95-109 | within the cooldown a Scale is ignored, without an answer about it it fails; nothing changes |
| EngineOperations.ScaleWithoutLimits | src/autoscaler/scalingengine/scalingengine.go:111-149 | a Scale whose adjustment is malformed, or for which there are no limits, fails; nothing changes |
| EngineOperations.FailedSetting | src/autoscaler/scalingengine/scalingengine.go:168-174 | a failing call to set instances leaves a failed entry with the count it was to set and starts no cooldown |
| EngineOperations.FailedCooldown | src/autoscaler/scalingengine/scalingengine.go:176-183 | a cooldown that cannot be replaced stays, or is gone if only the new one cannot be written, and the scaling has succeeded all the same; an entry that cannot be saved changes nothing else |
| EngineOperations.ScheduleTakesEffect | src/autoscaler/scalingengine/scalingengine.go:218-378 | without failures a schedule operation leaves the row it should, moves the count within the limits of the schedule (the larger of its two minima) or of the policy and no further, leaves the cooldown alone and saves the full entry |
| EngineOperations.ScheduleWithoutEffect | src/autoscaler/scalingengine/scalingengine.go:224-242 | a schedule operation whose row cannot be read or deleted, or that finds its schedule already active or not the one to end, changes nothing and saves nothing; if only the insertion fails the row is gone |
| EngineOperations.ScheduleWithoutApp | src/autoscaler/scalingengine/scalingengine.go:255-346 | a schedule operation that cannot get the app, or its policy, keeps the changed row and saves a failed entry |
| ScheduleSync.Sync | src/autoscaler/scalingengine/schedule/sync.go:48-72 | issues exactly the calls that set a missing or different schedule and remove one the scheduler does not have |
| ScheduleSync.OneCallPerApp | src/autoscaler/scalingengine/schedule/sync.go:50-71 | at most one call per app, and the row it leads to is the wanted one |
| ScheduleSync.NoCallMeansAgreed | src/autoscaler/scalingengine/schedule/sync.go:50-71 | an app without a call already has the wanted row |
| ScheduleSync.StepKeepsRow | src/autoscaler/scalingengine/scalingengine.go:218-254 | during its call an app's row is as before, deleted, or as wanted |
| ScheduleSync.PassKeepsRows | src/autoscaler/scalingengine/schedule/sync.go:48-72 | along every interleaving of a pass's calls, each row is as before until its call and as wanted after it |
| ScheduleSync.PassReconciles | src/autoscaler/scalingengine/schedule/sync.go:33-73 | for every execution order the engine's table is the scheduler's at the end, limits included, but for rows that had the right id before and stay, even if every call to the platform fails |
| ScheduleSync.NextPassIsSilent | src/autoscaler/scalingengine/schedule/sync.go:50-71 | the next pass issues no call if and only if no wanted schedule has the empty id |
| Overlap.IsNotOverlapRecurringSchedules | scheduler/src/main/java/org/cloudfoundry/autoscaler/scheduler/util/DataValidationHelper.java:130-165 | the messages the conflicting pairs of the sorted list deserve, each naming two conflicting schedules of the list, the earlier first; none if and only if no two schedules share a day of one kind, a date and a time |
| Overlap.ComparePair | scheduler/src/main/java/org/cloudfoundry/autoscaler/scheduler/util/DataValidationHelper.java:138-159 | one message for each kind of day of which the two share one, if their dates and times meet, naming both ids and the fields |
| Overlap.MessageTells | scheduler/src/main/java/org/cloudfoundry/autoscaler/scheduler/util/DataValidationHelper.java:136-163 | each message of the pair loop names two schedules of the list that conflict, the earlier first, and the fields that meet |
| Overlap.ComparePairs | scheduler/src/main/java/org/cloudfoundry/autoscaler/scheduler/util/DataValidationHelper.java:136-163 | the messages of all pairs, first schedule by first schedule |
| Overlap.CompareWithLater | scheduler/src/main/java/org/cloudfoundry/autoscaler/scheduler/util/DataValidationHelper.java:137-161 | the messages of one schedule with the later ones |
| Overlap.CaseAnalysisDecides | scheduler/src/main/java/org/cloudfoundry/autoscaler/scheduler/util/DataValidationHelper.java:167-211 | asked both ways round, the null case analysis decides whether the date ranges meet, a missing bound being infinite |
| Overlap.DatesMeetInADay | scheduler/src/main/java/org/cloudfoundry/autoscaler/scheduler/util/DataValidationHelper.java:167-211 | ranges meet if and only if some day lies in both |
| Overlap.TimesMeetInAMinute | scheduler/src/main/java/org/cloudfoundry/autoscaler/scheduler/util/DataValidationHelper.java:213-231 | closed time ranges meet if and only if some time lies in both |
| Overlap.ValidateTimeOverlapping | scheduler/src/main/java/org/cloudfoundry/autoscaler/scheduler/util/DataValidationHelper.java:213-231 | a message if and only if the times meet and a day is shared, naming the fields compared |
| Overlap.HasSameElement | scheduler/src/main/java/org/cloudfoundry/autoscaler/scheduler/util/DataValidationHelper.java:233-240 | true if and only if the lists share an element |
| Overlap.SortingKeepsConflicts | scheduler/src/main/java/org/cloudfoundry/autoscaler/scheduler/util/DataValidationHelper.java:134 | whether the pair loop over the sorted list is silent depends only on the schedules, not on their order |
| Overlap.ValidateOverlappingDays | api/lib/validation/attributeValidator.js:36-68 | the errors are exactly the conflicting pairs by that kind of day, in order, sentinel dates standing for infinite ones |
| Overlap.ErrorsMean | api/lib/validation/attributeValidator.js:36-68 | a pair of positions is an error if and only if the two share a day of the kind asked for and their dates and times meet |
| Overlap.SentinelConflict | api/lib/validation/attributeValidator.js:23-52 | one pair, decided with sentinel dates |
| SortedPairs.BadPairsMembers | api/lib/validation/attributeValidator.js:39-64 | the nested loop finds a pair of positions if and only if it conflicts |
| SortedPairs.SortByIsStable | scheduler/src/main/java/org/cloudfoundry/autoscaler/scheduler/util/DataValidationHelper.java:134 | elements with equal keys keep their order |
| SortedPairs.SayAllMembers | scheduler/src/main/java/org/cloudfoundry/autoscaler/scheduler/util/DataValidationHelper.java:136-163 | what the pair loop says is what there is to say about some pair, and all of it |
| Overlap.ChecksAgree | api/lib/validation/attributeValidator.js:36-68 | the sorted Java loop is silent if and only if both unsorted JavaScript loops are, for every list |
| Overlap.IsNotOverlapForSpecificDate | scheduler/src/main/java/org/cloudfoundry/autoscaler/scheduler/util/DataValidationHelper.java:251-280 | a message for each neighbouring pair that meets, naming the fields; none if and only if all pairs are disjoint |
| Overlap.NeighboursDecide | scheduler/src/main/java/org/cloudfoundry/autoscaler/scheduler/util/DataValidationHelper.java:258-277 | in a list sorted by start the neighbours are disjoint if and only if all pairs are |
| Overlap.CompareNeighbours | scheduler/src/main/java/org/cloudfoundry/autoscaler/scheduler/util/DataValidationHelper.java:258-277 | the messages of the neighbouring pairs that meet, in order |
| Overlap.NeighbourMessageMembers | scheduler/src/main/java/org/cloudfoundry/autoscaler/scheduler/util/DataValidationHelper.java:258-277 | the messages are those of neighbours of which the later starts no later than the earlier ends, with their ids and the fields compared |
| Schedulers.ConsistentExactlyIf | scheduler/src/main/java/org/cloudfoundry/autoscaler/scheduler/service/ScheduleManager.java:629-724 | for every interleaving of checks, stores and end jobs of firings with creations and deletions: start jobs pair with schedules, end jobs with active rows by id and start identifier, and no app has two active rows, in all states exactly when every step is harmless |
| Schedulers.StepPairedIff | scheduler/src/main/java/org/cloudfoundry/autoscaler/scheduler/quartz/AppScalingScheduleStartJob.java:55-79 | a step from a paired state leads to one exactly when it is harmless: a store needs its schedule and no other active row, a deletion or an end job no half-stored firing |
| Schedulers.SaveHarmlessIff | scheduler/src/main/java/org/cloudfoundry/autoscaler/scheduler/quartz/AppScalingScheduleStartJob.java:61-73 | a checked firing stores harmlessly exactly when its app was not deleted since the check and no other row of the app is active |
| Schedulers.ScheduleStaysIff | scheduler/src/main/java/org/cloudfoundry/autoscaler/scheduler/service/ScheduleManager.java:699-724 | along every run a schedule is there exactly until its app is deleted |
| Schedulers.ReachableConsistent | scheduler/src/main/java/org/cloudfoundry/autoscaler/scheduler/quartz/AppScalingScheduleStartJob.java:55-79 | if firings are not interrupted every reachable state is consistent whenever none is under way |
| Schedulers.RowsAreStarted | scheduler/src/main/java/org/cloudfoundry/autoscaler/scheduler/quartz/AppScalingSpecificDateScheduleStartJob.java:22-43 | along every run, however firings, end jobs and deletions interleave: each active row, each end job and each half-done firing goes back to a start job that fired at its start identifier, for a schedule of its app then stored, when no row of the app was active and, for a specific date, before the end of the schedule |
| Schedulers.StartJobsAlwaysMatch | scheduler/src/main/java/org/cloudfoundry/autoscaler/scheduler/service/ScheduleManager.java:629-724 | start jobs pair with schedules in every state of every run |
| Schedulers.OnlyFrom | scheduler/src/main/java/org/cloudfoundry/autoscaler/scheduler/quartz/AppScalingScheduleStartJob.java:103-169 | a step brings forth no row but by a store, no end job but by its scheduling, no firing but by a start job that may start |
| Schedulers.UninterruptedFiring | scheduler/src/main/java/org/cloudfoundry/autoscaler/scheduler/quartz/AppScalingScheduleStartJob.java:55-79 | check, store and end job taken at once are the firing as written |
| Schedulers.StartFiredConsistent | scheduler/src/main/java/org/cloudfoundry/autoscaler/scheduler/quartz/AppScalingScheduleStartJob.java:37-79 | a start firing keeps that |
| Schedulers.EndFiredConsistent | scheduler/src/main/java/org/cloudfoundry/autoscaler/scheduler/quartz/AppScalingScheduleEndJob.java:20-59 | so does an end firing, which removes its active row |
| Schedulers.CreatedAllConsistent | scheduler/src/main/java/org/cloudfoundry/autoscaler/scheduler/service/ScheduleManager.java:629-657 | so does creation |
| Schedulers.StoredNowIff | scheduler/src/main/java/org/cloudfoundry/autoscaler/scheduler/quartz/AppScalingScheduleStartJob.java:103-169 | storing keeps consistency exactly when the schedule is there and no other row of its app is active |
| Schedulers.OverlapIff | scheduler/src/main/java/org/cloudfoundry/autoscaler/scheduler/quartz/AppScalingScheduleStartJob.java:61-75 | two firings that both check before either stores keep it exactly for different apps, or for one firing twice |
| Schedulers.DeletionBeforeStore | scheduler/src/main/java/org/cloudfoundry/autoscaler/scheduler/quartz/AppScalingScheduleStartJob.java:61-75 | a deletion between check and store always breaks it |
| Schedulers.OverlappingFiringsLeaveAnEndJob | scheduler/src/main/java/org/cloudfoundry/autoscaler/scheduler/quartz/AppScalingScheduleStartJob.java:61-75 | two such firings from a reachable state |
| Schedulers.Scheduler.CreateSchedules | scheduler/src/main/java/org/cloudfoundry/autoscaler/scheduler/service/ScheduleManager.java:629-657 | a row and a start job for each schedule, under fresh ids |
| Schedulers.Scheduler.DeleteJob | scheduler/src/main/java/org/cloudfoundry/autoscaler/scheduler/service/ScheduleJobManager.java:153-173 | deletes the start job, and the end job found through the active row |
| Schedulers.Scheduler.DeleteKind | scheduler/src/main/java/org/cloudfoundry/autoscaler/scheduler/service/ScheduleManager.java:701-720 | the loop over one kind leaves no schedule, start job or end job of those ids |
| Schedulers.Scheduler.DeleteOne | scheduler/src/main/java/org/cloudfoundry/autoscaler/scheduler/service/ScheduleManager.java:704-710 | one round: the row, its start job and the end job of its active row |
| Schedulers.Scheduler.DeleteSchedules | scheduler/src/main/java/org/cloudfoundry/autoscaler/scheduler/service/ScheduleManager.java:699-762 | in any state: exactly the app's schedules and active rows, the start jobs of those schedules and the end jobs of their active rows go; from a consistent state nothing of the app is left; exactly the app's active rows are notified |
| Schedulers.RemovedIsDeleted | scheduler/src/main/java/org/cloudfoundry/autoscaler/scheduler/service/ScheduleManager.java:701-723 | deleting rows and jobs first and active rows last leaves nothing of the app, where jobs and rows match |
| Schedulers.Scheduler.ExecuteStartJob | scheduler/src/main/java/org/cloudfoundry/autoscaler/scheduler/quartz/AppScalingScheduleStartJob.java:37-79 | in any state: nothing if the app has an active row or a specific date is not before its end; otherwise exactly one new row with the fire time and its end job |
| Schedulers.Scheduler.ExecuteEndJob | scheduler/src/main/java/org/cloudfoundry/autoscaler/scheduler/quartz/AppScalingScheduleEndJob.java:20-59 | uses up its trigger, removes the row with its id if it carries its start identifier, and changes nothing else |
| PolicySync.SynchronizeSchedules | scheduler/src/main/java/org/cloudfoundry/autoscaler/scheduler/service/ScheduleManager.java:765-848 | in any state with fresh ids: the rows of each app are created, replaced, deleted or untouched as the guids decide, with the three counts, and the jobs follow where jobs and rows matched; fails without a change if a policy does not parse |
| PolicySync.AppSyncedMeans | scheduler/src/main/java/org/cloudfoundry/autoscaler/scheduler/service/ScheduleManager.java:806-844 | schedules of a policy are stored unless the stored guid is the policy's, and then nothing of the app changes; without a policy, or with one without schedules, what is stored goes, and with it the active rows |
| PolicySync.CountsMean | scheduler/src/main/java/org/cloudfoundry/autoscaler/scheduler/service/ScheduleManager.java:808-836 | the counts are the apps with schedules of which none was stored, those whose schedules are gone or come under another guid, and those stored without a policy |
| PolicySync.SyncConverges | scheduler/src/main/java/org/cloudfoundry/autoscaler/scheduler/service/ScheduleManager.java:765-848 | given that stored guids tell the schedules, under whatever ids, the schedule tables afterwards hold exactly the schedules of the policies that have any |
| PolicySync.SecondSyncChangesNothing | scheduler/src/main/java/org/cloudfoundry/autoscaler/scheduler/service/ScheduleManager.java:765-848 | a second synchronisation leaves the schedule tables as they are in any state, and every table and job where jobs and rows match |
| PolicySync.ReflectingGuids | scheduler/src/main/java/org/cloudfoundry/autoscaler/scheduler/service/ScheduleManager.java:765-848 | a synchronisation leaves behind what the next one needs: one guid per app, and guids that tell |
| PolicySync.ReplacingKeepsOneGuid | scheduler/src/main/java/org/cloudfoundry/autoscaler/scheduler/rest/ScheduleRestController.java:87-100 | replacing an app's schedules under one guid keeps one guid per app |
| PolicySync.AppGuids | scheduler/src/main/java/org/cloudfoundry/autoscaler/scheduler/service/ScheduleManager.java:792-804 | a guid for exactly the apps with schedules, taken from one of them |
| PolicySync.Compare | scheduler/src/main/java/org/cloudfoundry/autoscaler/scheduler/service/ScheduleManager.java:808-826 | the apps found new, changed and without schedules |
| PolicySync.Decide | scheduler/src/main/java/org/cloudfoundry/autoscaler/scheduler/service/ScheduleManager.java:766-836 | which apps to delete and to create, and the three counts |
| PolicySync.DeleteAndCreate | scheduler/src/main/java/org/cloudfoundry/autoscaler/scheduler/service/ScheduleManager.java:837-844 | carrying that out leaves each app as decided, in any state with fresh ids |
| PolicySync.DeleteApps | scheduler/src/main/java/org/cloudfoundry/autoscaler/scheduler/service/ScheduleManager.java:837-840 | in any state: no schedule and no active row of those apps left, all other rows as they were, and no job of them where jobs and rows matched |
| PolicySync.RemovedApp | scheduler/src/main/java/org/cloudfoundry/autoscaler/scheduler/service/ScheduleManager.java:699-762 | a deletion, in any state, clears the rows of its app and no others |
| PolicySync.CreateApps | scheduler/src/main/java/org/cloudfoundry/autoscaler/scheduler/service/ScheduleManager.java:842-844 | in any state with fresh ids: those apps stored as their policies say, all else as it was |
| PolicySync.CreatedApp | scheduler/src/main/java/org/cloudfoundry/autoscaler/scheduler/service/ScheduleManager.java:629-657 | a created list is stored under consecutive fresh ids and touches no other app |
| EnvelopeProcessors.EnvelopeProcessor.ProcessHttpStartStop | src/autoscaler/metricsserver/collector/envelope_processor.go:142-152 | the nested maps keep holding the count and the total response time of every instance in the window |
| EnvelopeProcessors.EnvelopeProcessor.ComputeAndSaveMetrics | src/autoscaler/metricsserver/collector/envelope_processor.go:169-215 | sends, each once, exactly two metrics per active instance of a monitored app and one zero for an idle one it owns; the window is empty afterwards |
| EnvelopeProcessors.EnvelopeProcessor.MetricsOf | src/autoscaler/metricsserver/collector/envelope_processor.go:172-210 | the metrics of one app |
| EnvelopeProcessors.OneMoreRequest | src/autoscaler/metricsserver/collector/envelope_processor.go:150-151 | one increment keeps the maps of its app right |
| EnvelopeProcessors.CountGrows | src/autoscaler/metricsserver/collector/envelope_processor.go:142-152 | count and total of an instance start at zero and grow by one and by the duration with each request of that app and instance, and with no other |
| Sharding.EveryTimerAccountedFor | src/autoscaler/metricsserver/collector/ws_handler.go:64 | for any hash and processor count, in every run: what a processor closed, accumulated and queues is, in order, what was received for the apps it owns |
| Sharding.RoutedOnce | src/autoscaler/metricsserver/collector/ws_handler.go:64 | a timer goes to its owner as often as it was received and to nobody else |
| Sharding.ThroughputFromOwnerOnly | src/autoscaler/metricsserver/collector/envelope_processor.go:169-215 | throughput is sent for a monitored app by its owner alone: a zero for instance 0 if idle, else for exactly the instances with a request their number per second to the nearest integer |
| Sharding.ResponseTimeFromOwnerOnly | src/autoscaler/metricsserver/collector/envelope_processor.go:200-209 | a response time is sent by the owner alone, for exactly the instances with a request: their total over their number in milliseconds, cut off towards zero |

## Hypotheses of the main results

- `LeaseMutualExclusion`: first calls return no error when they report the lock as acquired, and every ready process has
  renewed no longer ago than its lease by the database clock. A process counts as ready from closing the channel until it
  begins to release, exits or crashes. `TableAlwaysSafe` and `RowLostOnlyWhen` need neither.
- `HistoryReplays`: the entries of changes are saved and a call that sets instances and fails has no effect, which
  `HistoryReplaysExactlyIf` shows to be needed; only the engine changes counts; the history at the start, if any, chains
  to the counts. `CooldownsRespected` has no hypothesis;
  `ScalingsSpaced` asks that the cooldown write of the earlier scaling succeeded. Scalings are read from a log of all
  entries offered to the history, of which the history is the saved part (`HistoryIsSavedLog`).
- `PassReconciles`: the schedule table answers; calls to the platform, the policies and the history may fail; nothing
  but the pass runs.
- `DoEvaluate`: each trigger is evaluated at a time of its own, and a query is answered with metrics in time order;
  `CacheVerdict` asks that rows the cache does not hold are older than all it holds.
- `RowsAreStarted`: the start job of a specific date carries the end of its schedule.
- `ConsistentExactlyIf` and `ReachableConsistent`: each firing sees the stored job data; Quartz, database and
  notifications succeed; the deletion of an app and the replacement of its active rows by one are single steps. An end
  job that a firing is about to schedule counts as scheduled. `ReachableConsistent` asks in addition that no firing is
  interrupted.
- `SynchronizeSchedules`: ids in use are below the next one (`FreshIds`), and each policy's schedules carry its app and
  guid (`SetUp`). `SyncConverges` and `SecondSyncChangesNothing` ask besides that all policies parse and that a stored
  guid equal to the policy's means equal schedules, under any ids (`GuidsTell`); what they say about jobs and active rows
  needs `Consistent`, what they say about schedules does not.

## Left out

- Logging, Prometheus, HTTP, web sockets, configuration, `String` of the ring cache, and the lines that format reasons and messages of the scaling history.
- 64-bit overflow of `end + 1`, of the number of Puts, of durations times a second and of summed response times: integers are unbounded.
- Floating point: percentages, rates and response times are computed on exact reals; a parsed adjustment is a parameter.
- Thread interleaving inside the ring cache, the collector and the app manager: their methods run under a lock and are modelled as atomic.
- `refreshMetricCache` and `computePolicies` of the app manager: the same two loops and hash as `RefreshApps` of the collector.
- `QueryMetricsWithLabels`, the bulk save of metrics and the pruning of tables.
- PostgreSQL: a transaction is one atomic step with the database time at its start, which is not later than the clock; which row a `LIMIT 1` query picks is a parameter.
- A commit that fails after the server applied it is covered (`AtCommit`), a begin that hangs is not.
- The sleep between attempts of a lease transaction: other transactions may come in between, its length plays no part.
- The result and error values the three engine operations return to their caller: the model keeps what they do to tables, counts and history.
- Waiting for a striped lock is not a state: a thread begins when the stripe is free. A stripe is any function of the app, which covers the FNV hash and any table size.
- Calls of `GetActiveSchedule` and `GetAppPolicy` inside `Scale` are one step with the computation before them.
- `Sync` when one of its two queries fails: it then does nothing.
- The circuit breaker around the alarm: `DoEvaluate` says which trigger is passed to it.
- Two triggers of an array that are one object in memory.
- Quartz: triggers, misfires, cron expressions, time zones, the retries after failures (`handleJobRescheduling`) and the details of end jobs that stay stored after they have fired.
- `null` and empty lists are the same in the overlap checks; the parsing of dates and times is left out, so is the JavaScript check of specific dates, which rests on a library.
- A policy that does not parse makes `synchronizeSchedules` throw in its comparison loop; the model calls that `Failed`.
- Container and custom metrics of the envelope processor.
- `BitsetUserType`, `RefreshAllowedMetricCache`, broker bindings, credentials and pagination.
