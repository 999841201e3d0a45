# A verified model of the uptime checker

The uptime checker runs HTTP checks on a schedule. This project models the parts of it that carry
state or recursion, operation by operation, and proves what they keep.

| file | models |
|---|---|
| `Prelude.dfy` | `Option`, `Result`, two facts about division |
| `Assertions.dfy` | the assertion tree as users write it, and the library calls it leans on |
| `Compile.dfy` | compiling a tree under an operation budget |
| `Evaluate.dfy` | evaluating a compiled tree under a gas budget |
| `Pruning.dfy` | cutting a tree down to the reason for its verdict |
| `Verdicts.dfy` | what verdicts and runtime errors say about the source tree; responses without a body |
| `Leaves.dfy` | what the verdicts of JSONPath and header leaves mean |
| `LeafLaws.dfy` | what each kind of leaf tests, told from the source leaf and the response |
| `Costs.dfy` | what the gas of an evaluation pays for |
| `Cache.dfy` | the cache of compiled assertions, and many calls on it at once |
| `CheckConfig.dfy`, `RoundRobin.dfy` | slots of a check in the hour; rotation over regions |
| `ConfigStore.dfy` | the store of checks and its index of 3600 buckets |
| `ConfigSync.dfy` | keeping a store in step with Redis while configs are written |
| `Scheduler.dfy`, `Restarts.dfy` | dispatching ticks, saving progress, resuming after crashes |
| `Executor.dfy` | the queue of checks, bounded concurrency, retries |
| `Manager.dfy` | which partitions a checker owns and serves |

How the modules hang together:

- The compiler and the evaluator are methods that change a budget, a gas counter and an index path, as the
  checker does, including the early returns that leave the path un-popped. Each is proved against a
  specification that has neither budget nor gas nor path (`Compile.FirstFault`, `Compile.Lowered`,
  `Evaluate.Meaning`), and the theorems are about that specification.
- JSON, JSONPath, glob and number libraries are the fields of `Libraries.Library`: function values over which
  every theorem quantifies. A comparison of doubles knows NaN and the infinities.
- The cache, Redis, restart and executor protocols are step systems (`Enabled`, `Step`); their theorems speak of every
  run of every interleaving. The sequential code that takes part in them is modelled beside them as methods,
  and a lemma says that the method's effect is a run of the steps (`ConfigSync.VisitIsARun`,
  `ConfigSync.LoadIsARun`, `Cache.CallIsARun`) or that the values it sends are allowed ones (`Restarts.ProcessorFollowsTheProtocol`).

Where the code and what one would expect of it part ways, the model follows the code:

- `TookTooLong` never carries a path (src/assertions/compiled.rs:33-46).
- A glob compared with a JSON value that is not a string pays 5 gas and then reports `TookTooLong`
  (src/assertions/compiled.rs:557-562), so that error does not always mean that the gas ran
  out: `Costs.NoGasIsEnough` gives an evaluation that no gas saves, and `Costs.TookTooLongExactly` with
  `Leaves.LeafTripsExactly` says exactly what the error means.
- An empty JSONPath result fails every comparison, `Always` included (src/assertions/compiled.rs:278-281).
- A cache hit ignores the operation limit of the call: `Cache.HitIgnoresTheLimit` gives such calls and
  `Cache.AnswersAreTheCompilersExactly` says exactly when an answer is the compiler's.
- The tick processor forgets a failed receiver at the end of its batch, so a later batch can move the watermark
  past the failed tick: `Scheduler.WatermarkCanPassAFailedTick` gives such a run, and
  `Scheduler.WatermarkIsSafe` and `Scheduler.SafetyFromTheFirstUncleanBatch` say exactly which runs are safe.
- Updates that were taken from Redis are lost when the reply or the payloads do not arrive, when a payload does
  not decode, or when an overlapping checker took them: `ConfigSync.FailedReadCanDiverge`,
  `ConfigSync.LostUpdateCanDiverge` and `ConfigSync.UnreadablePayloadCanDiverge` give such runs, and
  `ConfigSync.RestIsInSyncExactly` says exactly when the store is right all the same.
- A scheduler that finds the progress key absent, because none was written yet or because it expired a day after
  the last write, starts at the current second and may leave a gap: `Restarts.AbsentKeyLeavesAGap` and
  `Restarts.ExpiredKeyLeavesAGap` give such histories, and `Restarts.NothingIsSkippedExactly` says exactly which
  histories have none.

## Model

| member | source | states |
|---|---|---|
| Compile.OpBudget.Take | src/assertions/compiled.rs:696-705 | one operation is taken, or refused at zero without wrapping |
| Compile.CompileOp | src/assertions/compiled.rs:731-776 | succeeds exactly when no node in preorder is out of budget or malformed, with the lowered tree, the budget reduced by the node count and the path restored; otherwise the error is the first fault's and the leftover path is that node's address |
| Compile.VisitChildren | src/assertions/compiled.rs:838-848 | the same for a list of children compiled left to right |
| Compile.CompileAssertion | src/assertions/compiled.rs:707-729 | the outcome of a whole compilation is the lowered tree or the first fault with its path filled in |
| Compile.BudgetIsExact | src/assertions/compiled.rs:696-776 | compilation succeeds if and only if the node count is within the limit and every leaf is well formed |
| Compile.ErrorAddressesFirstFault | src/assertions/compiled.rs:707-776 | a reported path leads, in the source tree, to the node of smallest preorder rank that is out of budget or malformed; `TooManyOperations` is reported exactly when that rank equals the limit |
| Compile.FaultRank | src/assertions/compiled.rs:731-776 | the fault found is the first one, and running out of budget wins over a malformed leaf at the same node |
| Compile.SiteAddress | src/assertions/compiled.rs:731-776 | the index path built while descending leads back to the node |
| Compile.PreorderIsSorted | src/assertions/compiled.rs:731-776 | nodes are compiled in the order of their paths, parents first and left before right |
| Compile.PreorderIsComplete | src/assertions/compiled.rs:731-776 | and none is left out |
| Evaluate.Gas.Consume | src/assertions/compiled.rs:181-192 | gas is paid in full, or refused with `TookTooLong` |
| Evaluate.CmpCoerceJson | src/assertions/compiled.rs:450-486 | a JSON value is compared as a double, else as an integer, else as a string, else not at all; the gas-free outcome if the gas covers its cost, else `TookTooLong` |
| Evaluate.CmpJsonOperand | src/assertions/compiled.rs:550-568 | JSON operands under gas, globs costing 5 and counting only for equality |
| Evaluate.CmpHeaderOperand | src/assertions/compiled.rs:528-548 | header operands under gas, typed by what the literal parses to |
| Evaluate.EvalHeaderOperand | src/assertions/compiled.rs:351-385 | the six comparisons on a header operand, under gas |
| Evaluate.EvalJsonOperand | src/assertions/compiled.rs:271-312 | the outcome of going through the values found, which `Leaves.JsonVerdictIsForAll` reads as a for-all, if the gas covers its cost, else `TookTooLong` |
| Evaluate.EvalHeaders | src/assertions/compiled.rs:650-671 | the outcome of going through the headers, which `Leaves.HeaderVerdictIsExists` reads as an existential, if the gas covers its cost, else `TookTooLong` |
| Evaluate.EvalLeaf | src/assertions/compiled.rs:638-688 | each leaf has its gas-free outcome if the gas covers its cost, else `TookTooLong` |
| Evaluate.EvalOp | src/assertions/compiled.rs:600-694 | a tree has its gas-free verdict, reason path and cost if the gas covers the cost, else `TookTooLong`; the path is restored on success and left at the failing leaf on a gas-free error |
| Evaluate.EvalChildren | src/assertions/compiled.rs:612-633 | the same for a short-circuit scan of children |
| Evaluate.EvalAssertion | src/assertions/compiled.rs:211-240 | the reported result of an evaluation with a fresh gas limit and path |
| Pruning.PruningKeepsTheVerdict | src/assertions/compiled.rs:154-177 | for a tree that compiles and evaluates, pruning by the reason path never indexes out of bounds or meets the unreachable arm; the pruned tree is no bigger, compiles under the same limit, has the same verdict under the same gas for no more cost, and is its own pruning |
| Pruning.PruneInduction | src/assertions/compiled.rs:154-177 | the same for every subtree, without limits |
| Pruning.PruningCutsAlong | src/assertions/compiled.rs:154-177 | pruning along a reason leaves every node on the way with the one child on the way and its old kind, and the node at the end whole |
| Pruning.CutLeavesTheWay | src/assertions/compiled.rs:154-177 | so the node at the end is kept and the pruned tree has besides it only as many nodes as the way has steps |
| Pruning.PrunedTreeIsTheDecider | src/assertions/compiled.rs:98-177 | for a tree that compiles and evaluates, what remains is exactly the node that decides the verdict and the way to it |
| Pruning.PruningExplainsTheVerdict | src/assertions/compiled.rs:98-177 | the pruned tree is a sufficient reason: on any other response that gives it the same verdict, the whole tree has that verdict or fails |
| Pruning.PrunedTreeIsSufficient | src/assertions/compiled.rs:98-177 | the same for every subtree, without limits |
| Verdicts.VerdictIsTruth | src/assertions/compiled.rs:601-693 | a verdict is the classical and/or/not truth value of the source tree, whatever values are assumed for the failing leaves that were skipped |
| Verdicts.SoundLeavesGiveAVerdict | src/assertions/compiled.rs:601-693 | when no leaf fails there is a verdict |
| Verdicts.CompiledEvaluationRefinesSource | src/assertions/compiled.rs:601-776 | compiling and then evaluating refines the truth value of the source tree, and with sound leaves and enough gas has a verdict |
| Verdicts.ScanEnds | src/assertions/compiled.rs:612-633 | a scan runs through, stops at the first child with the stopping verdict, or fails at the first failing child before it |
| Verdicts.ReasonDecides | src/assertions/compiled.rs:98-152 | the reason of a verdict leads to a node that decides it: every And on the way goes to its first false child, every Or to its first true one, and the node is a leaf, an And of true children or an Or of false ones |
| Verdicts.DeciderIsTheReason | src/assertions/compiled.rs:98-152 | and to no other node: where one decides, there is a verdict and its reason leads there |
| Verdicts.FailureIsAReachedLeaf | src/assertions/compiled.rs:601-693 | a gas-free error is that of a leaf which short-circuit evaluation reaches, and its path is that leaf's |
| Verdicts.ReachedFailureIsReported | src/assertions/compiled.rs:601-693 | conversely, a reached leaf that fails is the one reported, so there is at most one |
| Verdicts.RuntimeErrorsAreLocated | src/assertions/compiled.rs:212-240 | with enough gas an evaluation fails exactly when it reaches a failing leaf; the reported error is that leaf's, with that leaf's path where the error kind has one that is filled in |
| Verdicts.BodyCanBeSkipped | src/assertions/mod.rs:12-39 | when `requires_body` is false the body changes neither outcome nor gas, so not downloading it is safe |
| Verdicts.BodyIsNotRead | src/assertions/mod.rs:12-39 | the same for every subtree, without limits |
| Verdicts.BodyIsRequiredExactly | src/assertions/mod.rs:12-39 | the body is required if and only if some node of the tree is a JSONPath leaf |
| Costs.GasPaysForReachedLeaves | src/assertions/compiled.rs:601-693 | the gas a tree takes is the sum of what the leaves reached by short-circuit evaluation take, nothing for inner nodes and skipped leaves |
| Costs.GasIsAThreshold | src/assertions/compiled.rs:179-192 | below that sum every evaluation is `TookTooLong`; from it on the limit does not matter; raising the limit never changes any other outcome |
| Costs.TookTooLongExactly | src/assertions/compiled.rs:179-192 | an evaluation reports `TookTooLong` if and only if its gas is below what the reached leaves take, or it reaches a leaf that fails with that error by itself |
| Costs.FailsByTrippingExactly | src/assertions/compiled.rs:550-568 | such a leaf is one that evaluation reaches and that trips over a value that is no string |
| Costs.NoGasIsEnough | src/assertions/compiled.rs:557-562 | a tree and a response that report `TookTooLong` under every gas limit |
| Leaves.LeafTripsExactly | src/assertions/compiled.rs:271-312 | a leaf has that error without running out of gas if and only if it compares JSONPath values with a glob for equality or inequality, the body parses, the query finds values, and the first of them that does not pass is no string |
| Leaves.ValuesTripExactly | src/assertions/compiled.rs:550-568 | the same for the values found |
| Leaves.JsonVerdictIsForAll | src/assertions/compiled.rs:271-312 | the verdict on the values a query finds is true if and only if there is a value and all pass; otherwise it is that of the first that does not pass; the gas is the sum up to the deciding value |
| Leaves.HeaderVerdictIsExists | src/assertions/compiled.rs:650-671 | the verdict on the headers is true if and only if some header passes with none before it erring, false if and only if none passes or errs; the gas is the sum up to the deciding header |
| LeafLaws.StatusLeaf | src/assertions/compiled.rs:638-649 | compiled and evaluated, a status leaf takes one unit of gas and says whether the response's status is below, above, equal or unequal to the value |
| LeafLaws.HeaderLeaf | src/assertions/compiled.rs:650-671 | compiled and evaluated, a header leaf is true if and only if some header's name passes the key operand and its value the value operand with none before it erring; what a literal reads as decides whether doubles, integers or strings are compared, the response's side first |
| LeafLaws.JsonLeaf | src/assertions/compiled.rs:673-688 | compiled and evaluated, a JSONPath leaf fails with the body or the query, is false when nothing is found, and otherwise is true if and only if all values pass its operand, with the gas and error of the first that does not |
| LeafLaws.LeafCompilesExactly | src/assertions/compiled.rs:745-772 | which leaves fail to compile, with which error, and which of two faults is reported |
| LeafLaws.DoublesAreOrdered | src/assertions/compiled.rs:496-518 | doubles compare as reals between the infinities and NaN compares as false |
| LeafLaws.StringsAreOrdered | src/assertions/compiled.rs:496-518 | strings compare lexicographically |
| Cache.AssertionCache.Lookup | src/assertions/cache.rs:50-64 | a hit is the code of the key |
| Cache.AssertionCache.Store | src/assertions/cache.rs:66-83 | inserting keeps every entry right, whatever it pushes out |
| Cache.AssertionCache.GetOrCompile | src/assertions/cache.rs:50-86 | one call, with anything right that other calls leave between its two sections: the answer is the compiler's if and only if the key missed or fits this call's limit; errors are never stored. `Cache.CallIsARun` shows that other calls leave nothing else |
| Cache.StepKeepsInv | src/assertions/cache.rs:50-86 | every section of every call keeps entries and answers right |
| Cache.RunKeepsInv | src/assertions/cache.rs:50-86 | so does every run of concurrent calls |
| Cache.AnswersAreTheCompilersExactly | src/assertions/cache.rs:50-86 | in every run of concurrent calls with any limits and evictions, an answer is the compiler's if and only if the call missed or its key fits the call's own limit |
| Cache.OneLimitIsTransparent | src/assertions/cache.rs:50-86 | in every run under one limit every answer is the compiler's, and everything stored is a success the compiler gives for its key |
| Cache.CallIsARun | src/assertions/cache.rs:50-86 | one call with any steps of others between its sections is a run; what the others leave is right, and answer and entries are those of the sequential contract |
| Cache.HitIgnoresTheLimit | src/assertions/cache.rs:56-64 | a second call for a stored key succeeds under a limit at which compiling it fails |
| CheckConfigs.SlotsAreAResidueClass | src/types/check_config.rs:106-128 | the slots are exactly the seconds of the hour congruent to the first slot: in range, distinct, 3600/interval of them |
| CheckConfigs.SlotsPerHour | src/types/check_config.rs:14-33 | how often a check of each interval comes round in an hour |
| RoundRobin.AppearsOncePerResidue | src/config_store.rs:34-38 | a check is in the bucket of a second if and only if that second of the epoch, not just of the hour, is congruent to its slot |
| RoundRobin.AppearsExactlyOnce | src/types/check_config.rs:106-128 | any `interval` consecutive seconds hold exactly one appearance, and the rotation counter is one higher at the next |
| RoundRobin.RotationSumFits | src/types/check_config.rs:166-175 | the 128-bit addition cannot overflow, because of the version nibble of a version 5 UUID |
| RoundRobin.RunningIndexIsTurn | src/types/check_config.rs:143-175 | the machine arithmetic of the rotation is the plain one for times from the epoch on |
| RoundRobin.RunsExactly | src/types/check_config.rs:106-175 | when and in which region a check runs, told from its fields: at the seconds congruent to a constant of its id, and if it is round robin with regions only in the one whose turn the count of intervals, offset by another constant of its id, makes it |
| RoundRobin.TurnOfIsItsTurn | src/types/check_config.rs:143-175 | every place in the region list gets a turn within one rotation |
| RoundRobin.TurnIsUnique | src/types/check_config.rs:143-175 | and only one |
| RoundRobin.EachRegionTakesItsTurns | src/types/check_config.rs:143-175 | over any window of one rotation, each region runs a round-robin check with regions exactly as many times as the list names it |
| RoundRobin.EveryRegionRunsOncePerInterval | src/types/check_config.rs:146-157 | a check that is not round robin, or names no regions, runs in each region exactly once per interval |
| ConfigStores.ConfigStore.constructor | src/config_store.rs:79-92 | an empty store with 3600 empty buckets |
| ConfigStores.ConfigStore.AddConfig | src/config_store.rs:99-113 | the map gains the check under its id and every bucket agrees with the new map, also when an older version with another interval is replaced |
| ConfigStores.ConfigStore.RemoveConfig | src/config_store.rs:116-126 | the id is gone from the map and every bucket; an unknown id changes nothing, the update time included |
| ConfigStores.ConfigStore.GetConfigs | src/config_store.rs:134-136 | a tick's bucket holds exactly the stored checks whose interval comes round at it |
| ConfigStores.BucketGains | src/config_store.rs:107-110 | adding a check under a free id changes the buckets of its slots and no other |
| ConfigSync.StepKeepsInv | src/check_config_provider/redis_config_provider.rs:213-304 | every step of writers, consumer, overlapping checkers, Redis failures and restarts keeps the invariant of the protocol |
| ConfigSync.RunKeepsInv | src/check_config_provider/redis_config_provider.rs:213-304 | so does every run |
| ConfigSync.DifferencesAreAccountedFor | src/check_config_provider/redis_config_provider.rs:213-304 | at every point of every run, where store and hash differ at an id, a writer is between its two writes, the update hash names it, the unapplied batch holds it, or a failure dropped it |
| ConfigSync.QuietMeansInSync | src/check_config_provider/redis_config_provider.rs:213-304 | after any run without Redis failures, once writers and consumer rest, the store is the decoded hash |
| ConfigSync.OneVisitCatchesUp | src/check_config_provider/redis_config_provider.rs:231-293 | with writers at rest, one visit brings an idle consumer in step, whatever happened before |
| ConfigSync.RestIsInSyncExactly | src/check_config_provider/redis_config_provider.rs:213-304 | at rest after any run, with any number of Redis failures, unreadable payloads, restarts and updates taken by overlapping checkers, the store is the decoded hash if and only if it agrees with it on the ids of lost updates |
| ConfigSync.FailedReadDropsTheBatch | src/check_config_provider/redis_config_provider.rs:235-268 | in particular, after one failed payload read at rest the store is in step if and only if it already held the current version of each config of the lost batch |
| ConfigSync.FailedReadCanDiverge | src/check_config_provider/redis_config_provider.rs:235-268 | for every config there is a run in which a failed read leaves it missing at rest |
| ConfigSync.LostUpdateCanDiverge | src/check_config_provider/redis_config_provider.rs:235-236 | for every config there is a run in which a lost reply, and one in which another checker taking the update, leaves it missing at rest |
| ConfigSync.UnreadablePayloadCanDiverge | src/check_config_provider/redis_config_provider.rs:270-284 | for every config there is a run in which a payload that does not decode leaves its old version in the store at rest |
| ConfigSync.VisitIsARun | src/check_config_provider/redis_config_provider.rs:231-293 | what the consumer's code does in one undisturbed visit is a run of the protocol's steps |
| ConfigSync.LoadIsARun | src/check_config_provider/redis_config_provider.rs:169-191 | what the initial load does is a run of the protocol's steps |
| ConfigSync.AnnouncedChangeArrives | src/check_config_provider/redis_config_provider.rs:213-304 | from any idle state, a new version or a deletion reaches the store through its two writes and one visit |
| ConfigSync.RestartHeals | src/check_config_provider/redis_config_provider.rs:149-191 | from any state, a restart and the initial load bring the store in step with the hash |
| ConfigSync.RedisPartition.ConsumeConfigUpdates | src/redis.rs:69-103 | takes all updates, sorted into upserts and deletes, and leaves none behind |
| ConfigSync.RedisPartition.GetConfigKeyPayloads | src/redis.rs:105-112 | one answer per requested id, in order, empty for a missing field |
| ConfigSync.RedisPartition.ReadConfigs | src/redis.rs:64-67 | every field of the config hash, once |
| ConfigSync.RemoveAll | src/check_config_provider/redis_config_provider.rs:243-254 | the loop over deletes removes exactly the given ids |
| ConfigSync.AddAll | src/check_config_provider/redis_config_provider.rs:270-284 | the loop over payloads stores exactly those that decode |
| ConfigSync.VisitPartition | src/check_config_provider/redis_config_provider.rs:231-293 | one partition's visit: deletes carried out, then the present versions of the upserted configs stored, and the update hash empty |
| ConfigSync.LoadPartition | src/check_config_provider/redis_config_provider.rs:169-191 | the initial load stores every config of the hash that decodes |
| Scheduler.ScheduleChecks | src/scheduler.rs:108-169 | a tick queues, once each, exactly the stored checks that appear at its second and whose turn it is in this region |
| Scheduler.QueueDue | src/scheduler.rs:118-148 | the loop over the bucket queues exactly the due checks, none twice |
| Scheduler.ResidentIsQueuedExactly | src/scheduler.rs:108-169 | however other checks come and go between ticks, a check that stays and rotates is queued in one full rotation as often as its list names this region, and one that does not rotate exactly once per interval |
| Scheduler.LastChangeDecides | src/config_store.rs:99-126 | what is held under an id after a round of adds and removes is what the last of them that touches it says, and unchanged if none does |
| Scheduler.ApplyChanges | src/check_config_provider/redis_config_provider.rs:243-290 | a round of adds and removes on the store, in order |
| Scheduler.DispatchTicks | src/scheduler.rs:268-272 | over consecutive ticks with any adds and removes before each of them, every tick queues, once each, exactly the checks then held that are due here, and the counts of `ResidentIsQueuedExactly` hold of every check that stays |
| Scheduler.AwaitChecks | src/scheduler.rs:190-204 | the executor is done if and only if some answer of the bundle failed |
| Scheduler.AwaitBatch | src/scheduler.rs:185-214 | the last tick of a batch is that of the last bundle before the first failed one |
| Scheduler.ProcessTicks | src/scheduler.rs:171-266 | for every division of the bundles into batches, the watermark values sent and how the loop ends, stated per batch and without the loop's variables |
| Scheduler.WriteIsSafeExactlyWhenEarlierBatchesAreClean | src/scheduler.rs:185-226 | a written tick and all before it are fully resolved if and only if no earlier batch had a failed receiver |
| Scheduler.WatermarkIsSafe | src/scheduler.rs:171-266 | all values a run sends are safe if and only if no batch after one with a failed receiver sends anything |
| Scheduler.SafetyFromTheFirstUncleanBatch | src/scheduler.rs:171-266 | told from the batches alone: a run is safe if and only if the first batch with a failed receiver is the last one, ends the processing by its first bundle or a fatal write, or is followed by a batch whose first bundle failed |
| Scheduler.WatermarkIncreases | src/scheduler.rs:171-266 | the values a run sends strictly increase, whatever the batches and failed writes |
| Scheduler.ProgressIsComplete | src/scheduler.rs:171-266 | when every check resolves and no write is fatal, the last value sent is the last tick dispatched |
| Scheduler.ResolvedTicksAreSaved | src/scheduler.rs:185-226 | if processing gets to a batch and its bundles up to k are resolved, a value at least as late as bundle k's tick is sent |
| Scheduler.BatchesAreReached | src/scheduler.rs:175-266 | processing gets past every batch whose first bundle resolved and whose write was not fatal |
| Scheduler.SentValuesEndResolvedFronts | src/scheduler.rs:185-226 | every value sent fits 64 bits and is the tick of the last resolved bundle at the front of a batch that was reached |
| Scheduler.WatermarkCanPassAFailedTick | src/scheduler.rs:190-226 | a run in which a value is written beyond a tick that failed |
| Scheduler.SafeWriteIsABundle | src/scheduler.rs:185-226 | in a safe run a sent value is the tick of a resolved bundle with everything before it resolved |
| Scheduler.SecondsAreEnough | src/scheduler.rs:86-104 | the start in nanoseconds lies neither ahead of the clock nor more than a second after the stored value, and falls in the second that whole-second arithmetic gives, also for an unaligned stored value |
| Scheduler.StartIsExact | src/scheduler.rs:86-104 | a run starts one second after the watermark when that is not past the current second, else at the current second, and so later than the watermark once the clock is past it |
| Scheduler.StartLeavesNothingOut | src/scheduler.rs:86-104 | a run does not start past a second that lies after an aligned watermark and is not in the future |
| Restarts.StepKeepsInv | src/scheduler.rs:86-271 | every step of any number of schedulers on one progress key keeps the invariant, with crashes, overlaps, late replies, late or lost writes and key expiry, unless a scheduler without a key starts past seconds not covered |
| Restarts.RunKeepsInv | src/scheduler.rs:86-271 | so does every history |
| Restarts.NothingIsSkipped | src/scheduler.rs:86-104 | over every history in which schedulers that found no key start only at the very beginning or when all seconds before are resolved, the stored watermark vouches for every second up to it, every second from the first to the newest dispatched one was dispatched by some run, and no run is ahead of the clock |
| Restarts.PresentKeyCoversStarts | src/scheduler.rs:86-104 | that condition holds when only a scheduler that begins the history starts without a key |
| Restarts.PromptRestartsFindTheKey | src/redis.rs:9-12 | and so it does when every scheduler but the first, which is alone, reads the key within a day of the last landed write |
| Restarts.KeyLivesADay | src/redis.rs:9-12 | after a write lands the key is there for 86400 seconds, however the history goes on |
| Restarts.NothingSavedIsRepeated | src/scheduler.rs:86-104 | a scheduler that read a watermark and starts once the clock is past it never dispatches a second at or below it |
| Restarts.CatchesUp | src/scheduler.rs:268-272 | a live scheduler can always dispatch everything up to the current second |
| Restarts.KeysLiveInitially | src/redis.rs:9-12 | every history begins in the state this asks for |
| Restarts.NothingIsSkippedExactly | src/scheduler.rs:86-104 | over every history whatever, with keys expiring any number of times and replies coming late, no second is ever skipped if and only if no scheduler that found no key starts after the history has begun while the second before was not dispatched by any run |
| Restarts.AbsentKeyIsHarmlessExactly | src/scheduler.rs:86-104 | when, after any history without gaps, a scheduler that found the key absent or expired starts and dispatches its first tick, no second is skipped if and only if some run had already dispatched the second before, or the history only begins now |
| Restarts.AbsentKeyLeavesAGap | src/scheduler.rs:86-104 | a history in which the first scheduler crashes before it writes, the second finds no key, and a second is never dispatched |
| Restarts.ExpiredKeyLeavesAGap | src/redis.rs:9-12 | a history in which a written key expires and the second after the written one is never dispatched |
| Restarts.ProcessorFollowsTheProtocol | src/scheduler.rs:171-266 | in a run that is safe in the sense of `WatermarkIsSafe`, each value the processor sends is a step of the restart protocol, given only the bundles it has received so far |
| Restarts.ProcessorIsARun | src/scheduler.rs:171-266 | the values such a processor sends, each of them landing or lost, make a run of the restart protocol, with the last landed value as the watermark it leaves; the values increase |
| Executor.StepKeepsInv | src/check_executor.rs:142-390 | every step of senders, stream and slots keeps the invariant: each check is in exactly one place, and counters and attempts agree with it |
| Executor.RunKeepsInv | src/check_executor.rs:142-390 | so does every run |
| Executor.CountersAreExact | src/check_executor.rs:152-321 | in every run the queue counter is the channel plus the sends and receives under way, the running counter is the number of slots and at most the concurrency (0 sets no limit), and neither subtraction meets zero |
| Executor.ChecksAreSettledOnce | src/check_executor.rs:327-390 | in every run each check is answered at most once, attempted at most retries + 1 times, published at most once, with its last status, all earlier ones being failures; only a passing robots check is answered without publishing |
| Executor.StepUsesWork | src/check_executor.rs:282-390 | every step but the arrival of a new check decreases a measure |
| Executor.ThereIsAStep | src/check_executor.rs:282-390 | while a check is unanswered some step other than an arrival is possible, so nothing deadlocks |
| Executor.EveryCheckIsAnswered | src/check_executor.rs:282-390 | once arrivals stop, every run is finite and one that cannot go on has answered every check |
| Executor.AnyOutcomeIsPossible | src/check_executor.rs:327-390 | new checks are never refused, a running check can end in any status, and a robots check can pass |
| Executor.AllSlotsCanBeUsed | src/check_executor.rs:282-321 | every number of checks that the concurrency allows can run at once |
| Executor.FirstInFirstOut | src/check_executor.rs:142-166 | checks, retries among them, are taken in the order in which they were sent |
| Manager.StepByIsAResidueClass | src/check_config_provider/redis_config_provider.rs:352-365 | a checker's partitions are those congruent to its number |
| Manager.EveryPartitionHasOneOwner | src/check_config_provider/redis_config_provider.rs:352-365 | over a fleet, partition p is owned by checker p mod n and by no other, nobody owns anything else, and a checker number out of range is refused |
| Manager.ServiceManager.constructor | src/manager.rs:283-290 | no service is live or was ever started |
| Manager.ServiceManager.RegisterPartition | src/manager.rs:364-380 | a new partition gets a new service, a registered one keeps its own |
| Manager.ServiceManager.UnregisterPartition | src/manager.rs:382-394 | the partition's service leaves the map for the shutdown queue; an unknown partition changes nothing |
| Manager.ServiceManager.UnregisterAll | src/manager.rs:353-356 | the loop over dropped partitions shuts down exactly their services |
| Manager.ServiceManager.RegisterAll | src/manager.rs:358-361 | the loop over new partitions starts services never seen before and touches no other |
| Manager.ServiceManager.UpdatePartitions | src/manager.rs:344-362 | afterwards exactly the requested partitions are served, surviving services are untouched, dropped ones are in the shutdown queue, and every service ever started is either live or was shut down once |

## Left out

- HTTP, DNS and TLS, body streaming, robots.txt, result statistics, producers, HTTP endpoints, metrics, logging, configuration: input and output or plumbing. Times are parameters.
- JSONPath, glob, JSON and number parsing are parameters (`Libraries.Library`). A query is taken to pay a fixed cost for a given query and document, and to fail with `TookTooLong` when the gas does not cover it; the partial charges inside one query are not modelled.
- SHA-1 inside version 5 UUIDs is a parameter; only the version nibble of its result is assumed.
- Evaluate.EvalOp: the cast of a child position to 32 bits is not modelled; a compiled tree has fewer nodes than that, since its operation budget is a 32-bit number.
- Evaluate.EvalChildren: the source's And and Or loops share one method with the stopping verdict as a parameter; likewise header and JSONPath operands share one type in the source tree, and the initial load and the monitor share the loop that stores payloads.
- RoundRobin.EachRegionTakesItsTurns: stated for times from the epoch up to 2^63 seconds; the casts of negative times are modelled but nothing is claimed about them.
- Cache.AssertionCache.GetOrCompile: placement and timestamps of the associative cache are not modelled; an insertion may evict anything.
- Poisoned locks are not modelled anywhere.
- ConfigSync.StepKeepsInv: update messages that do not decode, and payloads stored under another config's key, are not modelled; several writers may work at once, but only on different keys; of an overlapping checker only its taking of updates is modelled, not its store; the read-only mode, which never consumes updates, is not modelled.
- ConfigSync.VisitPartition: a Redis failure or an overlapping checker in the middle of a visit is modelled in the step system only.
- Scheduler.DispatchTicks: the interval is taken to yield every second in order; errors of `queue_check` and shutdown are not modelled.
- Restarts.NothingIsSkipped: the clock does not go back, Redis and the checkers share it, and ticks dropped by a dying executor are only treated by the condition of `ProcessorFollowsTheProtocol`.
- Scheduler.SafetyFromTheFirstUncleanBatch: stated for ticks whose time fits an i64 of nanoseconds; `WatermarkIsSafe` is stated for all.
- Executor.StepKeepsInv: cancellation, a dropped answer receiver and errors of the producer are not modelled; both counters are unbounded upwards, and how late a check is appears only as the status of the attempt. Leaving a slot and subtracting it from the running counter is one step, as both happen in one poll of the stream.
- Executor.EveryCheckIsAnswered: attempts are taken to finish.
- Manager.ServiceManager.UpdatePartitions: outstanding references to a service while it is being shut down, and lookups racing with the update, end in panics that are not modelled; two updates at once are not modelled.
- `should_check_robots`, whose only call is commented out, and the table of internal address ranges.
