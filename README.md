# Buck remote execution, rdeps sets, cache statistics and strategy selection, in Dafny

This project models five pieces of the Buck build tool and proves properties of the models.

- **Remote execution of one build rule** (`RemoteExecutionStrategy`). Each rule has a
  `RuleContext`:
  - a single-assignment guard, which ends up either *cancelled, with a reason* or *past the point
    of no return*;
  - a FIFO queue of cancellation callbacks;
  - the stage the rule is in, and the last stage it closed, with the time spent in and between
    stages.

  The pipeline computes the action, uploads its inputs, executes it, and then deletes stale outputs
  and materializes the new ones. Module `RuleContexts` models the context: a value-level state
  machine (`Ctx`), a `class RuleContext` whose methods are proved against it, and lemmas over
  arbitrary event histories. Module `RemoteExecution` models the pipeline as sequential stages on
  values that are already resolved. The effects each stage would request (add-missing uploads,
  execute, delete, materialize, record artifact) are logged in order. A `Schedule` places cancels
  before execution, while the execution job runs, and after it started.
- **Reverse-dependency sets** (`RdepsSet.kt`, module `RdepsSets`). Add/remove deltas are grouped
  by target and applied to the old rdeps set. The result is stored as a sorted array (`Unique`)
  below a threshold of 10 and as a persistent set (`Persistent`) from 10 up. `createSimpleSet`
  runs a two-pointer merge into an `array`. It is proved to build exactly
  `(old \ removed) ∪ added`, in strictly ascending order and of the expected size. For deltas
  with distinct targets it is also proved to fail on every add of a present id and every remove
  of an absent id.
- **Multitenant types** (`Types.kt`, module `MultitenantTypes`):
  - the sorted `BuildTargetSet` invariant;
  - the content equality and hash code of `InternalRawBuildRule`;
  - `BuildPackageChanges.isEmpty`.
- **Cache statistics** (`CacheRateStatsKeeper.java`, module `CacheRateStats`). The keeper is a
  class with seven counters, updated per finished rule according to its cache result. Fold
  functions replay whole event histories. Aggregation sums the reports field by field, and the sum
  does not depend on the order of the reports.
- **Build-strategy selection** (`ModernBuildRuleStrategyConfigFromSection.java`, module
  `StrategyConfig`). Selection follows this precedence over an abstract `(section, key)` lookup:
  force-disable, then the explicit strategy, then the auto-enabled experimental strategy (default
  section only), then DEFAULT. Also modelled:
  - the job counts and required keys of the hybrid-local configuration;
  - the `SECTION#flavor` section name of a delegate.

Module `Wrappers` holds `Option` and `Result`. These exceptions of the core become
`Err`/`Failed` values:
- the input-size `RuntimeException`;
- `StepFailedException`;
- `IllegalStateException` from `enterState`;
- `HumanReadableException` for a missing key;
- `IllegalStateException` of the rdeps merge, and `NegativeArraySizeException` for a negative size;
- the error of the CONTAINS cache result.

Three exceptions are not modelled, each listed under "Left out":
- the `Verify.verify` assertion of `getCancelReason`;
- parse errors of the configuration reader;
- `Long.valueOf` on the metadata blob.

Two behaviours are modelled as the code has them, though they are easy to misread:
- `enterState` checks the new stage against the last *closed* stage (`prevState`), not
  against the current one.
- `cancelIfNotComplete` returns `isCancelled()`. A rule past the point of no return therefore
  reports *not* cancelled.

## Model

| member | source | states |
|---|---|---|
| MultitenantTypes.Int32 | src/com/facebook/buck/multitenant/service/Types.kt:67-69 | Java `int` wrap-around: the result is in the signed 32-bit range, differs from the input by a multiple of 2^32, and equals an input already in range |
| MultitenantTypes.RuleHashCode | src/com/facebook/buck/multitenant/service/Types.kt:67-69 | a rule's hash is a signed 32-bit value computed from its node hash and its deps' contents |
| MultitenantTypes.RuleEqualsIsValueEquality | src/com/facebook/buck/multitenant/service/Types.kt:60-65 | two rules are equal iff their target nodes are equal and their deps arrays hold the same ids in the same order |
| MultitenantTypes.EqualRulesHashEqually | src/com/facebook/buck/multitenant/service/Types.kt:67-78 | rules that are equal have equal hash codes |
| MultitenantTypes.BuildPackageChanges.IsEmpty | src/com/facebook/buck/multitenant/service/Types.kt:104 | true iff the added, modified and removed lists are all empty |
| MultitenantTypes.IsBuildTargetSet | src/com/facebook/buck/multitenant/service/Types.kt:25-31 | the `BuildTargetSet` invariant: ids strictly ascending; the rdeps operations require and keep it (SimpleSetCorrect, SortedElementsFacts) |
| MultitenantTypes.RuleEquals | src/com/facebook/buck/multitenant/service/Types.kt:60-65 | `equals`: equal nodes and equal deps contents; characterised by RuleEqualsIsValueEquality |
| MultitenantTypes.ContentHashCode | src/com/facebook/buck/multitenant/service/Types.kt:76-78 | `contentHashCode` of the deps: always a signed 32-bit value |
| MultitenantTypes.DefaultBuildPackageChanges | src/com/facebook/buck/multitenant/service/Types.kt:99-103 | the changes built from the defaults are empty |
| RdepsSets.InsertSorted | src/com/facebook/buck/multitenant/service/RdepsSet.kt:80-85 | inserting a delta into a list sorted by target id keeps it sorted; the comparison reads only the id |
| RdepsSets.SortDeltas | src/com/facebook/buck/multitenant/service/RdepsSet.kt:80-85 | the sorted deltas are ordered by target id and are a permutation of the input |
| RdepsSets.SortIsStable | src/com/facebook/buck/multitenant/service/RdepsSet.kt:80-85 | the sort keeps the deltas of each target in their input order, whatever Add/Remove they are |
| RdepsSets.NetSort | src/com/facebook/buck/multitenant/service/RdepsSet.kt:191-196 | sorting does not change the count adds minus removes |
| RdepsSets.SortDistinct | src/com/facebook/buck/multitenant/service/RdepsSet.kt:80-85 | a list with distinct ids sorts into a strictly ascending one |
| RdepsSets.SortedSetSize | src/com/facebook/buck/multitenant/service/Types.kt:25-31 | a sorted `BuildTargetSet` has as many elements as distinct members |
| RdepsSets.AppliedSize | src/com/facebook/buck/multitenant/service/RdepsSet.kt:191-196 | for deltas that fit the old set, `old size + adds − removes` is the size of `(old \ removed) ∪ added` |
| RdepsSets.MergeFrom | src/com/facebook/buck/multitenant/service/RdepsSet.kt:238-292 | the two-pointer merge with its error cases; its results are characterised by MergeBuildsApplied, MergeRejectsMisfit and MergeEnds |
| RdepsSets.MergeBuildsApplied | src/com/facebook/buck/multitenant/service/RdepsSet.kt:238-292 | from any state of the merge that keeps its invariant, the merge ends Ok with exactly the applied set, strictly ascending, of the expected size |
| RdepsSets.MergeRejectsMisfit | src/com/facebook/buck/multitenant/service/RdepsSet.kt:249-288 | for strictly ascending deltas, an add of an id already present or a remove of an absent id makes the merge fail, in the main loop and in the tails |
| RdepsSets.MergeEnds | src/com/facebook/buck/multitenant/service/RdepsSet.kt:290-292 | at the end the filled length must equal the expected size, or the merge fails |
| RdepsSets.SortedElementsFacts | src/com/facebook/buck/multitenant/service/RdepsSet.kt:222-229 | the old set's members, sorted, form a strictly ascending array of the same size and members |
| RdepsSets.SortMembers | src/com/facebook/buck/multitenant/service/RdepsSet.kt:224-228 | the loop that copies and sorts the old set's members yields that sorted array |
| RdepsSets.Fill | src/com/facebook/buck/multitenant/service/RdepsSet.kt:231-294 | the three-index `while` loops over the array compute the merge's result |
| RdepsSets.CreateSimpleSet | src/com/facebook/buck/multitenant/service/RdepsSet.kt:217-295 | createSimpleSet returns the Unique set of the merge of the sorted old members with the sorted deltas |
| RdepsSets.SimpleSetCorrect | src/com/facebook/buck/multitenant/service/RdepsSet.kt:217-295 | for distinct deltas that fit and the computed size, the result is a valid Unique set holding `(old \ removed) ∪ added` of exactly that size |
| RdepsSets.SimpleSetRejects | src/com/facebook/buck/multitenant/service/RdepsSet.kt:249-288 | deltas with distinct targets that do not fit the old set make createSimpleSet fail, whatever the expected size |
| RdepsSets.DeriveNewPersistentSet | src/com/facebook/buck/multitenant/service/RdepsSet.kt:297-309 | the loop applies the deltas one by one to the old set, as a Persistent set |
| RdepsSets.LastDeltaWins | src/com/facebook/buck/multitenant/service/RdepsSet.kt:297-309 | an id is in the persistent result iff its last delta is an Add, or it has none and was in the old set |
| RdepsSets.ApplyInOrderIsApplied | src/com/facebook/buck/multitenant/service/RdepsSet.kt:297-309 | for distinct deltas the persistent result is `(old \ removed) ∪ added` |
| RdepsSets.ApplyDeltas | src/com/facebook/buck/multitenant/service/RdepsSet.kt:190-215 | applyDeltas computes the size, then null, a simple set or a persistent set |
| RdepsSets.AppliedRdepsCorrect | src/com/facebook/buck/multitenant/service/RdepsSet.kt:181-215 | the computed size is the size of the applied set; the result is null iff that set is empty, else a valid set holding it, Unique iff the size is below 10 |
| RdepsSets.AppliedRdepsRejects | src/com/facebook/buck/multitenant/service/RdepsSet.kt:190-215 | deltas that do not fit fail below the threshold; at size 0 they give null unchecked; a negative size is the array-size error; from 10 up they are applied unchecked |
| RdepsSets.AppliedRdepsBySize | src/com/facebook/buck/multitenant/service/RdepsSet.kt:190-215 | for every input: null iff the computed size is 0; a negative size is the array-size error; Unique below 10 and Persistent from 10 up |
| RdepsSets.RemoveThenAddKeeps | src/com/facebook/buck/multitenant/service/RdepsSet.kt:230-288 | a Remove then an Add of a present id keep their order through the sort and leave the id present, with no error |
| RdepsSets.FirstRdeps | src/com/facebook/buck/multitenant/service/RdepsSet.kt:155-168 | the null-old-rdeps branch: a Remove fails, otherwise the sorted added ids; characterised by FirstRdepsCorrect |
| RdepsSets.FirstRdepsCorrect | src/com/facebook/buck/multitenant/service/RdepsSet.kt:155-168 | with no old rdeps, the result is Ok iff every delta is an Add, and then it is the Unique set of the added ids, sorted, valid for distinct ids |
| RdepsSets.AggregateDeltaDeriveInfos | src/com/facebook/buck/multitenant/service/RdepsSet.kt:148-174 | the loop fills the map with each info's derived rdeps, stopping at the first error |
| RdepsSets.AggregateCorrect | src/com/facebook/buck/multitenant/service/RdepsSet.kt:148-174 | the aggregate succeeds iff every info derives; it then maps exactly the infos' targets, each (for distinct targets) to its own derivation |
| RdepsSets.CollectDeltasByTarget | src/com/facebook/buck/multitenant/service/RdepsSet.kt:111-127 | the loop builds the groups of the updates, in order of the first appearance of each target |
| RdepsSets.FirstSeenFacts | src/com/facebook/buck/multitenant/service/RdepsSet.kt:111-127 | the group keys are distinct and are exactly the updated targets, each with at least one delta |
| RdepsSets.GroupedShape | src/com/facebook/buck/multitenant/service/RdepsSet.kt:111-127 | the groups name distinct targets, exactly the updated ones, each with the non-empty list of its deltas in update order |
| RdepsSets.GroupingKeepsEveryDelta | src/com/facebook/buck/multitenant/service/RdepsSet.kt:111-127 | the groups together hold exactly as many deltas as there were updates |
| RdepsSets.DeriveRdepsDeltas | src/com/facebook/buck/multitenant/service/RdepsSet.kt:91-105 | deriveRdepsDeltas groups, looks up each target's rdeps, and aggregates |
| RdepsSets.DeriveRdepsDeltasCorrect | src/com/facebook/buck/multitenant/service/RdepsSet.kt:91-105 | the result is Ok iff every updated target derives, and then it maps exactly the updated targets to their new rdeps from all of their deltas |
| RuleContexts.Fire | src/com/facebook/buck/rules/modern/builders/RemoteExecutionStrategy.java:618-631 | draining runs each queued callback once, in queue order, with the cancel reason |
| RuleContexts.GuardSticks | src/com/facebook/buck/rules/modern/builders/RemoteExecutionStrategy.java:600-609 | once the guard is set, no later operation changes it |
| RuleContexts.GuardIsFirstDecision | src/com/facebook/buck/rules/modern/builders/RemoteExecutionStrategy.java:600-609 | the guard is whatever the first cancel or tryStart of the history wrote, and is set at most once |
| RuleContexts.CancelWinsForever | src/com/facebook/buck/rules/modern/builders/RemoteExecutionStrategy.java:595-609 | after a winning cancel the context stays cancelled with the first reason, whatever follows, and tryStart never succeeds |
| RuleContexts.StartWinsForever | src/com/facebook/buck/rules/modern/builders/RemoteExecutionStrategy.java:600-609 | after a winning tryStart no later cancel makes the context cancelled |
| RuleContexts.RunKeepsCallbacks | src/com/facebook/buck/rules/modern/builders/RemoteExecutionStrategy.java:600-631 | across any history, the callbacks run plus the callbacks still queued are exactly the registered ones, in order |
| RuleContexts.CallbacksRunOnceIffCancelled | src/com/facebook/buck/rules/modern/builders/RemoteExecutionStrategy.java:600-631 | from a fresh context, every registered callback has run exactly once, in order, with the reason, and the queue is empty iff cancelled; otherwise none ran |
| RuleContexts.LateCallbackRunsAtOnce | src/com/facebook/buck/rules/modern/builders/RemoteExecutionStrategy.java:611-616 | a callback registered after cancellation runs at once and leaves the queue empty |
| RuleContexts.StepKeepsStages | src/com/facebook/buck/rules/modern/builders/RemoteExecutionStrategy.java:633-654 | each step keeps the stage after the last closed one; closing moves the current stage to `prevState` and returns to Waiting; closing while Waiting changes nothing |
| RuleContexts.StagesNeverGoBack | src/com/facebook/buck/rules/modern/builders/RemoteExecutionStrategy.java:633-654 | after any history, no stage at or before one already closed can be entered |
| RuleContexts.RuleContext.constructor | src/com/facebook/buck/rules/modern/builders/RemoteExecutionStrategy.java:581-589 | a new context is unset, with an empty queue, Waiting, and its clock at the given time |
| RuleContexts.RuleContext.Cancel | src/com/facebook/buck/rules/modern/builders/RemoteExecutionStrategy.java:600-605 | cancel sets an unset guard to the reason, then drains the queue if the context is cancelled |
| RuleContexts.RuleContext.TryStart | src/com/facebook/buck/rules/modern/builders/RemoteExecutionStrategy.java:607-609 | tryStart succeeds iff the guard was unset, and then sets it past the point of no return |
| RuleContexts.RuleContext.OnCancellation | src/com/facebook/buck/rules/modern/builders/RemoteExecutionStrategy.java:611-616 | the callback is queued, and the queue is drained if the context is cancelled |
| RuleContexts.RuleContext.ProcessCallbackQueue | src/com/facebook/buck/rules/modern/builders/RemoteExecutionStrategy.java:618-631 | the `while`/poll loop runs the whole queue in order with the cancel reason and empties it |
| RuleContexts.RuleContext.EnterState | src/com/facebook/buck/rules/modern/builders/RemoteExecutionStrategy.java:633-643 | entering fails with the stage and current state iff the stage is not after `prevState`; otherwise the stage becomes current and the time since the last close is recorded |
| RuleContexts.RuleContext.CloseScope | src/com/facebook/buck/rules/modern/builders/RemoteExecutionStrategy.java:644-653 | closing records the time in the stage, moves it to `prevState` and returns to Waiting, unless already Waiting |
| RemoteExecution.ContainsIff | src/com/facebook/buck/rules/modern/builders/RemoteExecutionStrategy.java:547 | the substring test holds iff the path occurs at some position |
| RemoteExecution.StripMetadata | src/com/facebook/buck/rules/modern/builders/RemoteExecutionStrategy.java:543-565 | the loop keeps the files that are not metadata, in order, and takes the digest of the last metadata file |
| RemoteExecution.KeptFilesMembers | src/com/facebook/buck/rules/modern/builders/RemoteExecutionStrategy.java:545-552 | a file is kept iff it is an output file whose path does not contain the metadata path |
| RemoteExecution.LastMetadataIsLast | src/com/facebook/buck/rules/modern/builders/RemoteExecutionStrategy.java:545-552 | no digest iff no file is metadata; otherwise it is the digest of a metadata file after which no file is metadata |
| RemoteExecution.RecordedOutputs | src/com/facebook/buck/rules/modern/builders/RemoteExecutionStrategy.java:216-223 | the outputs recorded as artifacts, in order; characterised by RecordedOutputsMembers |
| RemoteExecution.GetRemoteExecutionActionInfo | src/com/facebook/buck/rules/modern/builders/RemoteExecutionStrategy.java:381-396 | entering and closing COMPUTING_ACTION around the computed action; its outcome from a fresh context is stated by UploadsFromScratch |
| RemoteExecution.UploadInputs | src/com/facebook/buck/rules/modern/builders/RemoteExecutionStrategy.java:320-348 | the size gate, the UPLOADING_INPUTS scope, add-missing and clearing the required data; characterised by UploadGate |
| RemoteExecution.HandleExecutionResult | src/com/facebook/buck/rules/modern/builders/RemoteExecutionStrategy.java:479-541 | the exit-code check, deletes and materialization; characterised by ExitCodeGuardsOutputs and DeletesBeforeMaterialize |
| RemoteExecution.Build | src/com/facebook/buck/rules/modern/builders/RemoteExecutionStrategy.java:182-297 | the whole pipeline for one rule; its outcomes are stated by BuildRejectsLargeInputs, BuildCancelledBeforeExecution, BuildCancelledDuringExecution and BuildRunsToCompletion |
| RemoteExecution.RecordedOutputsMembers | src/com/facebook/buck/rules/modern/builders/RemoteExecutionStrategy.java:216-223 | the recorded artifacts are exactly the declared outputs whose path does not contain the metadata path |
| RemoteExecution.CancelsFrom | src/com/facebook/buck/rules/modern/builders/RemoteExecutionStrategy.java:600-605 | a run of cancels leaves the first reason if the guard was unset, and changes nothing otherwise |
| RemoteExecution.UploadGate | src/com/facebook/buck/rules/modern/builders/RemoteExecutionStrategy.java:320-348 | the upload fails before any add-missing call iff the limit is respected, a maximum is set and it is below the total (equal passes); on success required data is cleared and the inputs are added once |
| RemoteExecution.ExitCodeGuardsOutputs | src/com/facebook/buck/rules/modern/builders/RemoteExecutionStrategy.java:479-541 | a non-zero exit code fails the step with nothing deleted or materialized; exit code 0 deletes every declared output, materializes, and ends after MaterializingOutputs |
| RemoteExecution.DeletesBeforeMaterialize | src/com/facebook/buck/rules/modern/builders/RemoteExecutionStrategy.java:519-540 | with exit code 0 every declared output is deleted, in order, before the materialization, which receives the non-metadata files |
| RemoteExecution.ExecuteNowThatInputsAreReady | src/com/facebook/buck/rules/modern/builders/RemoteExecutionStrategy.java:398-477 | an empty execution result happens only when the context is cancelled |
| RemoteExecution.CancelledBeforeExecution | src/com/facebook/buck/rules/modern/builders/RemoteExecutionStrategy.java:416-419 | a context cancelled when the execution job starts issues no execute call and yields the empty result |
| RemoteExecution.HandleActionInfo | src/com/facebook/buck/rules/modern/builders/RemoteExecutionStrategy.java:350-379 | an empty result is passed on only for a cancelled context |
| RemoteExecution.UploadsFromScratch | src/com/facebook/buck/rules/modern/builders/RemoteExecutionStrategy.java:306-348 | from a fresh context, computing and uploading an action within the limit adds its inputs once and clears its required data |
| RemoteExecution.BuildRejectsLargeInputs | src/com/facebook/buck/rules/modern/builders/RemoteExecutionStrategy.java:324-332 | an action over the input limit fails the build with the size error before any effect |
| RemoteExecution.BuildCancelledBeforeExecution | src/com/facebook/buck/rules/modern/builders/RemoteExecutionStrategy.java:208-212 | a cancel before execution turns the empty result into a cancelled build result with the first reason, after the two add-missing calls and no execute |
| RemoteExecution.ExecutionCancellation | src/com/facebook/buck/rules/modern/builders/RemoteExecutionStrategy.java:420-452 | the first cancel that wins against tryStart runs the execution's cancel callback once with its reason; otherwise tryStart wins and the callback stays queued |
| RemoteExecution.BuildCancelledDuringExecution | src/com/facebook/buck/rules/modern/builders/RemoteExecutionStrategy.java:420-463 | a cancel that wins during execution yields the cancelled build result after the execute call, with the execution callback run once |
| RemoteExecution.BuildRunsToCompletion | src/com/facebook/buck/rules/modern/builders/RemoteExecutionStrategy.java:182-297 | with no effective cancel, a non-zero exit fails after execute; exit 0 yields BuiltRemotely after execute, deletes, materialization and the recorded artifacts, in that order |
| RemoteExecution.BuildNeverMisordersStages | src/com/facebook/buck/rules/modern/builders/RemoteExecutionStrategy.java:633-643 | the pipeline never enters a stage out of order: a build fails only by the input limit or the exit code |
| RemoteExecution.CancelIfNotComplete | src/com/facebook/buck/rules/modern/builders/RemoteExecutionStrategy.java:287-290 | cancels the context and reports cancelled iff it was not past the point of no return |
| RemoteExecution.CancelIfNotCompleteReports | src/com/facebook/buck/rules/modern/builders/RemoteExecutionStrategy.java:282-290 | a cancel reports cancelled iff the context was not past the point of no return, and keeps an earlier reason |
| CacheRateStats.RecordFinished | src/com/facebook/buck/event/listener/stats/cache/CacheRateStatsKeeper.java:51-82 | a finished rule fails iff it is not cancelled and its result is CONTAINS; otherwise no counter decreases and the rule count is kept |
| CacheRateStats.ReplayFailsOnContains | src/com/facebook/buck/event/listener/stats/cache/CacheRateStatsKeeper.java:72-74 | replaying a history fails iff some non-cancelled rule finished with a CONTAINS result |
| CacheRateStats.ReplayCounts | src/com/facebook/buck/event/listener/stats/cache/CacheRateStatsKeeper.java:51-90 | each counter grows by the number of non-cancelled rules with its result types; `updated` counts all but LOCAL_KEY_UNCHANGED_HIT; the rule count is the last one set |
| CacheRateStats.CanceledIsIgnored | src/com/facebook/buck/event/listener/stats/cache/CacheRateStatsKeeper.java:52-54 | a cancelled rule changes no counter |
| CacheRateStats.OneCounterPerRule | src/com/facebook/buck/event/listener/stats/cache/CacheRateStatsKeeper.java:56-81 | a non-cancelled rule raises exactly one cache counter (none for SKIPPED) and exactly one of `updated` and local-unchanged hits |
| CacheRateStats.GetAggregatedCacheRateStats | src/com/facebook/buck/event/listener/stats/cache/CacheRateStatsKeeper.java:92-110 | the loop returns the field-wise sum of the reports (all zeros for none) |
| CacheRateStats.TotalAppend | src/com/facebook/buck/event/listener/stats/cache/CacheRateStatsKeeper.java:92-110 | the sum over two collections is the sum of their sums |
| CacheRateStats.TotalIgnoresOrder | src/com/facebook/buck/event/listener/stats/cache/CacheRateStatsKeeper.java:92-110 | any rearrangement of the reports has the same sum |
| CacheRateStats.TotalOfOne | src/com/facebook/buck/event/listener/stats/cache/CacheRateStatsKeeper.java:92-110 | the aggregate of one report is that report |
| CacheRateStats.CacheRateStatsKeeper.constructor | src/com/facebook/buck/event/listener/stats/cache/CacheRateStatsKeeper.java:41-49 | a new keeper has every counter at zero |
| CacheRateStats.CacheRateStatsKeeper.BuildRuleFinished | src/com/facebook/buck/event/listener/stats/cache/CacheRateStatsKeeper.java:51-82 | a finished rule updates the counters as its status and cache result say, or fails on CONTAINS with the counters unchanged |
| CacheRateStats.CacheRateStatsKeeper.RuleCountCalculated | src/com/facebook/buck/event/listener/stats/cache/CacheRateStatsKeeper.java:84-86 | overwrites the rule count and nothing else |
| CacheRateStats.CacheRateStatsKeeper.RuleCountUpdated | src/com/facebook/buck/event/listener/stats/cache/CacheRateStatsKeeper.java:88-90 | overwrites the rule count and nothing else |
| CacheRateStats.CacheRateStatsKeeper.GetStats | src/com/facebook/buck/event/listener/stats/cache/CacheRateStatsKeeper.java:112-115 | reports the current misses, errors, hits, rule count and updated count |
| CacheRateStats.StatsAfter | src/com/facebook/buck/event/listener/stats/cache/CacheRateStatsKeeper.java:51-115 | a fresh keeper's report after a history without CONTAINS counts exactly the rules of each kind |
| StrategyConfig.Ceil | src/com/facebook/buck/rules/modern/config/ModernBuildRuleStrategyConfigFromSection.java:60-69 | the rounded-up job count is the least integer not below the product |
| StrategyConfig.StrategyConfigFromSection.GetBuildStrategy | src/com/facebook/buck/rules/modern/config/ModernBuildRuleStrategyConfigFromSection.java:37-53 | getBuildStrategy; its precedence is stated by StrategyPrecedence, NoneOnlyWhenAsked and AutoEnabledOnlyInDefaultSection |
| StrategyConfig.StrategyConfigFromSection.GetHybridLocalConfig | src/com/facebook/buck/rules/modern/config/ModernBuildRuleStrategyConfigFromSection.java:56-80 | getHybridLocalConfig; stated by HybridRequiresDelegate, HybridJobsWithoutRatios and HybridJobsWithRatios |
| StrategyConfig.StrategyConfigFromSection.GetFlavoredStrategyConfig | src/com/facebook/buck/rules/modern/config/ModernBuildRuleStrategyConfigFromSection.java:88-91 | the same buckconfig read through `SECTION#flavor`; stated by FlavoredSectionsAreDistinct and FlavoredIgnoresAutoEnable |
| StrategyConfig.StrategyPrecedence | src/com/facebook/buck/rules/modern/config/ModernBuildRuleStrategyConfigFromSection.java:37-53 | force-disable gives NONE; else an explicit strategy wins; else the default section with auto-enable uses the experimental strategy if set; every other case gives DEFAULT |
| StrategyConfig.NoneOnlyWhenAsked | src/com/facebook/buck/rules/modern/config/ModernBuildRuleStrategyConfigFromSection.java:37-53 | NONE is selected only when force-disabled or when a setting names it |
| StrategyConfig.AutoEnabledOnlyInDefaultSection | src/com/facebook/buck/rules/modern/config/ModernBuildRuleStrategyConfigFromSection.java:46-52 | outside the default section the auto-enable flag changes nothing |
| StrategyConfig.FlavoredSectionShape | src/com/facebook/buck/rules/modern/config/ModernBuildRuleStrategyConfigFromSection.java:88-91 | a flavoured section is the default section, a `#`, then the flavor |
| StrategyConfig.FlavoredSectionsAreDistinct | src/com/facebook/buck/rules/modern/config/ModernBuildRuleStrategyConfigFromSection.java:88-91 | different flavors give different sections, none equal to the default section |
| StrategyConfig.FlavoredIgnoresAutoEnable | src/com/facebook/buck/rules/modern/config/ModernBuildRuleStrategyConfigFromSection.java:46-52 | a flavoured configuration reads its own section and never picks the experimental strategy |
| StrategyConfig.HybridRequiresDelegate | src/com/facebook/buck/rules/modern/config/ModernBuildRuleStrategyConfigFromSection.java:74-86 | the hybrid configuration fails iff `delegate_jobs` or `delegate` is missing, naming `delegate_jobs` first; otherwise it carries those and the delegate's flavoured section |
| StrategyConfig.HybridJobsWithoutRatios | src/com/facebook/buck/rules/modern/config/ModernBuildRuleStrategyConfigFromSection.java:58-72 | without ratios the local jobs are `local_jobs` or the thread count, and the local delegate jobs equal them |
| StrategyConfig.HybridJobsWithRatios | src/com/facebook/buck/rules/modern/config/ModernBuildRuleStrategyConfigFromSection.java:58-72 | a `local_jobs_ratio` takes precedence over `local_jobs` and gives the thread count times the ratio rounded up; `local_delegate_jobs_ratio` applies likewise to the local jobs |

## Left out

- Concurrency: futures, executors, `JobLimiter` and the atomic compare-and-set. Cancels and
  `tryStart` are interleaved sequentially. A `Schedule` puts cancels at three points: before the
  execution job, between registering the execution callback and `tryStart`, and after `tryStart`.
  A cancel during computing or uploading is equivalent to one before the execution job, because no
  stage before it reads the guard.
- The nanosecond clock. Each context call receives one `nowMs` value.
- Events posted to the event bus. The `RemoteExecutionActionEvent` and
  `RemoteBuildRuleExecutionEvent` contents are left out.
- The execution result future. It is assumed to succeed with the given result, also after the
  cancel callback has called `executionHandle.cancel()`. BuildCancelledDuringExecution relies on
  this: the result continuation still runs, loses `tryStart` and reports the cancel. A future
  that fails once cancelled is not modelled.
- Remote calls, as inputs. The computation of the action (`prepareRemoteExecution`) and the
  execution result are inputs. Content-addressed storage calls, deletion, materialization and the
  metadata fetch are logged as effects rather than performed.
- Failures of those remote calls. The failure paths of the fetch and materialize futures
  (`whenAllSucceed`) are left out.
- The metadata blob. It is not parsed as a decimal duration, so the `NumberFormatException` of `Long.valueOf` on a malformed blob (RemoteExecutionStrategy.java line 557) is not modelled; only its fetch is.
- The second add-missing call of `handleActionInfo`. It is modelled as the code has it: it
  receives the already-cleared required data.
- RuleContexts.RuleContext.GetCancelReason: requires a cancelled context. In the source this
  is an assertion (`Verify.verify`), not an error path.
- Callback exceptions. `processCallbackQueue` catches them, so a callback is modelled only as
  having run, with its reason.
- The `null` poll break of `processCallbackQueue`. With one thread, polling only returns `null`
  on an empty queue.
- RdepsSets.CreateSimpleSet: the in-place sort of the caller's delta list is modelled as a
  stable insertion sort on a value, not as mutation of the list.
- RdepsSets.DeriveNewPersistentSet:
  - the persistent set is a Dafny `set`, so vavr `HashSet` iteration order is not modelled;
  - like the source, this path does not check deltas against the old set.
- The versioned index read by `deriveRdepsDeltas`, which is passed in as a function.
- Integer widths. Kotlin and Java `Int` overflow in sizes, counters (`AtomicInteger`) and
  aggregated sums is not modelled: the counters are unbounded integers. The 32-bit wrap is
  written out only for hash codes.
- Cache miss and error rates, which are floating point.
- StrategyConfig.HybridJobsWithRatios: the ratios are exact reals, so float rounding and the
  saturation of `(int)` casts on huge values are not modelled.
- Strategy constants. `ModernBuildRuleBuildStrategy` and `ModernBuildRuleConfig.SECTION` are not
  part of this model's sources:
  - strategies other than NONE and DEFAULT are carried by name;
  - the section is the constant `modern_build_rule`. The proved properties only use the fact
    that the constant is fixed.
- Parse errors of `getEnum`/`getInteger`. They belong to the configuration reader, which is an
  input here.
