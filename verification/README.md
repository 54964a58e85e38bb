# FuzzMeter, modelled and proved in Dafny

FuzzMeter runs fuzzing campaigns: it starts fuzzer containers, takes snapshots of their corpora
and crashes while they run (or replays recorded runs), accumulates coverage profiles, and compares
fuzzers in reports. This project models the algorithms and state machines in the middle of it and
proves what the reports, the scheduler and the storage steps promise. `dafny verify dfyconfig.toml`
checks everything.

One module per component:

- `SetComparison`, `TrialSetCounts`, `TrialSetReport`, `TrialSetTightness`: the ownership index over
  trial sets, the single-pass counts, and why their bound labels are right and cannot be sharper;
  `NoveltyScores`, `ExclusiveStats` and `AggregateFallback` are the scores, the per-trial exclusive
  figures and the aggregate stand-ins.
- `RankStatistics`: Mann-Whitney U by mid-ranks against A12 by pair counting.
- `TickLifecycle`, `TickStatuses`, `TickShutdown`, `TickGuarantees`: the snapshot scheduler as a
  concurrent state machine, why each tick has its status, how errors and stops get around, and what
  is guaranteed to whom. `PeriodicTicks`, `ReplayTimeline`, `ReplayContents`, `WorkerBudget`: its
  due-time bookkeeping, the replay time line and what a replay leaves behind, and the job budget.
- `JobAllocation`, `ProfileMerge`, `OutputRoot`: the preprocess job allocator, coverage profile
  accumulation under retries, and publishing an output directory with rollback.
- `ConfigMerge`, `FuzzerGraph`, `FuzzerDependencies`: configuration inheritance, the fuzzer loader
  and the dependency list.
- `ShutdownProtocol`, `ShutdownProgress`: starting, stopping and sweeping containers around one
  reentrant lock, and what starts and sweeps can always reach.
- `CoverageCodec`, `CompositeKey`: the delta/LEB128 codec and the escaped identifiers.
- `Common`: options, results, sums, and finite sets.

Code that updates variables step by step is a method or a class whose contract ties it to a
specification function; threads are state machines over their atomic steps. Python sets, dictionaries
and strings are Dafny sets, maps and sequences of characters; where a loop runs over a set or
dictionary, the model visits it in an arbitrary order. What a specification function means is stated
once more in terms of the recorded data alone, by lemmas named for it (`UsableAreRecorded`,
`LayersInOrder`, `SnapshotsAtTicks`, `EscapeMeaning` and their like).

Five findings where the code does less than one might expect:

- A replayed trial ends at the second its latest file was written in, floored. Files stamped later
  within that second fall into no snapshot (`ReplayTimeline.LateFileIsLost`); every file is detected
  in some snapshot exactly when the latest time stamp lies on a whole second
  (`ReplayTimeline.AllIngestedExactlyWhen`).
- A failed tick aborts the ticks behind it unless the stop event gets set between the worker's two
  looks at it, by an external stop or by an error of the polling thread. Even in runs nobody stops
  from outside, the abort is certain exactly for schedulers built without a shared stop event
  (`TickGuarantees.UnstoppedRunsAbortExactlyWhen`, with runs for both causes).
- A coverage merge publishes its output root before it commits the cumulative profile. When an
  attempt fails at the commit and no later one succeeds, the root stays ahead of the profile; the two
  stay in step exactly when the merge succeeds, no attempt publishes, or there is nothing usable to
  add (`ProfileMerge.RootInStepExactlyWhen`, `ProfileMerge.RootRunsAhead`).
- A copy of the seed profile that breaks off leaves a file that passes for a finished bootstrap, and
  the seed is not copied again (`ProfileMerge.BrokenCopyLosesSeed`); the seed is part of the profile
  exactly when the first copy that left a file left the seed's content
  (`ProfileMerge.SeedKeptExactlyWhen`).
- A count over all trials is withheld for a label with a missing trial set, although the count over
  its usable trials would be a correct upper bound (`TrialSetTightness.WithheldCountIsUpper`).

## Model

| member | source | states |
|---|---|---|
| SetComparison.OccurrencesMeaning | src/fuzzmeter/reporting/set_comparison.py:149-151 | a value counted in some trial is in the union, and counted in all of them exactly when it is in every trial |
| SetComparison.UsableAreRecorded | src/fuzzmeter/reporting/set_comparison.py:143 | the usable trials of a label are the recorded sets, each as often as it was recorded, and nothing else |
| SetComparison.RecordedMeaning | src/fuzzmeter/reporting/set_comparison.py:142-152 | union, intersection, gaps and usable trials in terms of the raw list: reached by some, by every recorded trial, some set missing, some on record |
| SetComparison.CountOwners | src/fuzzmeter/reporting/set_comparison.py:149-152 | the counter holds exactly the values of the union, each with the number of trials that hold it |
| SetComparison.RecordOwners | src/fuzzmeter/reporting/set_comparison.py:153-154 | recording one label touches exactly the rows of its values |
| SetComparison.IndexLabel | src/fuzzmeter/reporting/set_comparison.py:141-154 | one more label turns the index of a label list into the index of the longer list |
| SetComparison.BuildIndex | src/fuzzmeter/reporting/set_comparison.py:128-163 | a value is owned by exactly the labels that reached it, with their trial counts; sizes, gaps and unions are those of each label |
| TrialSetCounts.HitsAreDifferences | src/fuzzmeter/reporting/set_comparison.py:192-200 | what the pass over the owner rows counts for a pair is union(r) minus union(c), or intersection(r) minus union(c) |
| TrialSetCounts.SoleHitsAreExclusive | src/fuzzmeter/reporting/set_comparison.py:186-191 | the rows with a single owner are the values no other label reached; with a full count, those in every trial of the owner |
| TrialSetCounts.CountOwnership | src/fuzzmeter/reporting/set_comparison.py:180-200 | the four count tables hold the cardinalities of those four sets for every label and pair |
| TrialSetReport.Compare | src/fuzzmeter/reporting/set_comparison.py:166-278 | every cell is the set-algebra count over the known sets with the bound of the missing-set table, or unknown |
| TrialSetReport.PairwiseBoundsSound | src/fuzzmeter/reporting/set_comparison.py:211-250 | for every content of the missing trial sets, a pairwise cell marked exact, lower or upper is so for the true count, any and all modes |
| TrialSetReport.ExclusiveBoundsSound | src/fuzzmeter/reporting/set_comparison.py:251-267 | the same for the exclusive counts |
| TrialSetReport.CompleteDataIsExact | src/fuzzmeter/reporting/set_comparison.py:180-200 | without missing sets all four figures are exact: the numbers of values in some trial, or in every trial, of the row and in no raw trial of the other label or labels |
| TrialSetReport.CompletePairsAreExact | src/fuzzmeter/reporting/set_comparison.py:192-200 | the pairwise half of it, for any two labels |
| TrialSetReport.PairwiseCellsSay | src/fuzzmeter/reporting/set_comparison.py:211-250 | every pairwise cell from the raw trials: its count, and a label by the table of missing sets on either side |
| TrialSetReport.ExclusiveCellsSay | src/fuzzmeter/reporting/set_comparison.py:251-267 | every exclusive cell in the same way |
| TrialSetTightness.PairwiseCountIsAttained | src/fuzzmeter/reporting/set_comparison.py:211-218 | the reported pairwise count is the truth for some content of the missing sets |
| TrialSetTightness.SubjectGapCanExceed | src/fuzzmeter/reporting/set_comparison.py:211-218 | with a gap on the subject side some completion exceeds the count, so no upper bound could be claimed |
| TrialSetTightness.ComparisonGapCanErase | src/fuzzmeter/reporting/set_comparison.py:211-218 | with a gap on the comparison side some completion makes the true count zero |
| TrialSetTightness.PairwiseBoundIsTight | src/fuzzmeter/reporting/set_comparison.py:211-236 | a pairwise any cell claims an upper bound if and only if no completion exceeds its count, and a lower bound or a zero count if and only if none falls below |
| TrialSetTightness.ExclusiveBoundIsTight | src/fuzzmeter/reporting/set_comparison.py:251-265 | the same for the exclusive any cells |
| TrialSetTightness.AllTrialsBoundIsTight | src/fuzzmeter/reporting/set_comparison.py:237-267 | for a complete subject, an all cell (pairwise or exclusive) is exact or zero if and only if no completion falls below its count |
| TrialSetTightness.WithheldCountIsUpper | src/fuzzmeter/reporting/set_comparison.py:211-218 | the withheld pairwise all count would be an upper bound over every completion, and with a gap in the subject some completion makes the truth zero |
| AggregateFallback.WithFallback | src/fuzzmeter/reporting/analyzers/coverage_matrices.py:32-58 | a label keeps its trials when one of them is on record or it has no aggregate, and else gets the aggregate alone and is marked; so every label with an aggregate has a usable trial afterwards |
| AggregateFallback.FallbackPairwiseSound | src/fuzzmeter/reporting/analyzers/coverage_matrices.py:50-56 | if the aggregates are the true unions, the fallback keeps every pairwise bound right for every completion of the other labels, whatever trials, or none on record, stand behind an aggregate |
| AggregateFallback.FallbackExclusiveSound | src/fuzzmeter/reporting/analyzers/coverage_matrices.py:50-56 | the same for the exclusive bounds |
| AggregateFallback.NoEntriesAreCovered | src/fuzzmeter/reporting/analyzers/coverage_matrices.py:50-56 | labels without any trial entry fall under the two results: complete data with true aggregates exist for them |
| NoveltyScores.StrangersAreNotOwners | src/fuzzmeter/reporting/set_comparison.py:376-377 | the labels that miss a value and its owners add up to all labels |
| NoveltyScores.TotalGrow | src/fuzzmeter/reporting/set_comparison.py:375-381 | one more value adds to the pair total once per trial holding it and label missing it |
| NoveltyScores.Score | src/fuzzmeter/reporting/set_comparison.py:375-381 | the sum over the owner rows equals the sum over trials and labels of what is news |
| NoveltyScores.Scores | src/fuzzmeter/reporting/set_comparison.py:362-382 | exactly the labels with a usable trial get a score, and score times trials is the sum of the sizes of t minus union(c) over all trials t and labels c |
| NoveltyScores.TotalPairByPair | src/fuzzmeter/reporting/set_comparison.py:362-382 | the pair total weighs one trial and one label by what the label lacks of the trial, and is additive in trials and labels |
| ExclusiveStats.PrefixSuffixIsElsewhere | src/fuzzmeter/reporting/analyzers/bug_analysis.py:79-89 | the unions before and after a position together are the union of all other labels |
| ExclusiveStats.OtherUnions | src/fuzzmeter/reporting/analyzers/bug_analysis.py:75-89 | the two running unions give each fuzzer the union of all the others |
| ExclusiveStats.TrialExtremes | src/fuzzmeter/reporting/analyzers/coverage_matrices.py:233-248 | the least and greatest per-trial exclusive count, attained and bounding, or none without a usable trial |
| ExclusiveStats.ExclusiveSandwich | src/fuzzmeter/reporting/analyzers/bug_analysis.py:75-114 | exclusive-all, where known, is at most the least, and the greatest at most exclusive-any, of the two independent computations, also when other labels are fallback labels |
| ExclusiveStats.SingleTrialCollapses | src/fuzzmeter/reporting/analyzers/bug_analysis.py:91-114 | with one repetition both exclusive totals equal that trial's own exclusive count |
| RankStatistics.VarghaDelaney | src/fuzzmeter/reporting/metrics.py:198-212 | A12 counts two points for each pair with x above y and one for a tie, and is withheld for an empty sample |
| RankStatistics.PointsComplementary | src/fuzzmeter/reporting/metrics.py:198-212 | the points of x over y and of y over x make two for each pair |
| RankStatistics.PointsPairByPair | src/fuzzmeter/reporting/metrics.py:206-211 | two points for a win, one for a tie, none for a loss, and points add up over both samples |
| RankStatistics.SortKeeps | src/fuzzmeter/reporting/metrics.py:163 | sorting the pooled sample gives an ascending permutation |
| RankStatistics.AssignRanks | src/fuzzmeter/reporting/metrics.py:164-173 | the block loop gives every observation twice the mean rank of its value: twice the values below, plus the ties, plus one |
| RankStatistics.TieCorrection | src/fuzzmeter/reporting/metrics.py:178-187 | the tie loop adds t cubed minus t for each group of t equal values |
| RankStatistics.TieSumOfGroup | src/fuzzmeter/reporting/metrics.py:184-186 | a sample of t equal values has the tie sum t cubed minus t |
| RankStatistics.TieSumOfApart | src/fuzzmeter/reporting/metrics.py:180-187 | samples without a common value add their tie sums |
| RankStatistics.RankSumIsPoints | src/fuzzmeter/reporting/metrics.py:174-175 | the doubled rank sum of x is its pair points plus n1 times n1 plus one, for all samples with ties |
| RankStatistics.MannWhitney | src/fuzzmeter/reporting/metrics.py:160-192 | a result exactly for two samples of at least two values that are not all equal; u1 and u2 are the pair points of the two samples, u is one of them and at most either, and the variance is the tie-corrected fraction |
| RankStatistics.VarianceWithoutTies | src/fuzzmeter/reporting/metrics.py:190 | without ties the variance is n1 times n2 times n plus one over twelve |
| RankStatistics.RanksAgreeWithPairs | src/fuzzmeter/reporting/metrics.py:174-177 | u1 is the A12 numerator, u1 and u2 sum to all pairs, and swapping the samples swaps them |
| RankStatistics.VarianceSign | src/fuzzmeter/reporting/metrics.py:188-192 | the corrected variance is never negative and zero exactly when all pooled values are equal |
| RankStatistics.WithheldExactly | src/fuzzmeter/reporting/metrics.py:160-192 | no statistic exactly for a sample below two values or a constant pool |
| TickLifecycle.StepInv | src/fuzzmeter/snapshot/scheduler.py:135-224 | every atomic step of poller, worker, coordinator and stop keeps the queue, index, sentinel and failure invariants |
| TickLifecycle.EveryQueuedTickSettled | src/fuzzmeter/snapshot/scheduler.py:185-224 | over every interleaving: when the loop returns, each tick queued ahead of the sentinel has exactly one final status, in queue order; later ones are only aborted; at most one failed |
| TickLifecycle.FailureAbortsTheRest | src/fuzzmeter/snapshot/scheduler.py:422-471 | a failed tick made the worker give up and all later ones are aborted, or the stop event was set in between by an external stop or a poller error |
| TickLifecycle.FailureAloneAbortsTheRest | src/fuzzmeter/snapshot/scheduler.py:446-454 | with neither of those two, every tick settled after the failed one is aborted |
| TickLifecycle.PollerErrorLetsWorkerContinue | src/fuzzmeter/snapshot/scheduler.py:213-216 | a concrete run without external stop in which a tick completes after a failed one |
| TickStatuses.StepLogs | src/fuzzmeter/snapshot/scheduler.py:422-471 | an atomic step logs nothing, or one entry whose status fits what happened to the tick: measured, failed, failed under the stop event, or drained |
| TickStatuses.EveryStatusJustified | src/fuzzmeter/snapshot/scheduler.py:422-471 | in every run each status was given by one step that justifies it, so a tick is not completed only if its measuring failed or it was drained |
| TickStatuses.MeasuringMayEnd | src/fuzzmeter/snapshot/scheduler.py:429-450 | a tick being measured can always be completed, and a failure of it can always be recorded |
| TickShutdown.ErrorIsReported | src/fuzzmeter/snapshot/scheduler.py:135-142 | in every run that returned, an error is on record exactly if a failed tick made the worker give up or the poller failed, and then the shared stop event is set |
| TickShutdown.StoppedPollerLeaves | src/fuzzmeter/snapshot/scheduler.py:207-217 | a stopped polling thread can queue the tick it has begun and then the sentinel, in at most three steps |
| TickGuarantees.UnstoppedRunsAbortExactlyWhen | src/fuzzmeter/snapshot/scheduler.py:135-152 | in all runs without an external stop every failure aborts what is settled after it, if and only if the scheduler has no shared stop event |
| TickGuarantees.HealthyPollerAbortsExactlyWhen | src/fuzzmeter/snapshot/scheduler.py:144-152 | the same for all runs without a poller error, stopped from outside or not |
| TickGuarantees.ExternalStopLetsWorkerContinue | src/fuzzmeter/snapshot/scheduler.py:446-454 | a concrete run without poller error in which an external stop lets a tick complete after a failed one |
| TickGuarantees.JoinNeverStuck | src/fuzzmeter/snapshot/scheduler.py:217-224 | in every reachable state after the sentinel was put, until the loop returns, poller or worker has an enabled step |
| TickGuarantees.ReturnsWithin | src/fuzzmeter/snapshot/scheduler.py:217-224 | from then on, with no further tick queued, the two threads take at most a bounded number of steps, so the join never hangs |
| PeriodicTicks.DueShape | src/fuzzmeter/snapshot/scheduler.py:309-315 | what one poll takes is a gapless run of steps up to now, and what stays scheduled is later than now or past the end |
| PeriodicTicks.Visit | src/fuzzmeter/snapshot/scheduler.py:303-316 | one trial adds itself once under each of its due times and moves on, or leaves the schedule |
| PeriodicTicks.PollPlan | src/fuzzmeter/snapshot/scheduler.py:300-322 | one poll announces ascending times with exactly the trials due at each, once, and the earliest next time |
| PeriodicTicks.SnapshotScheduler.constructor | src/fuzzmeter/snapshot/scheduler.py:79-90 | the tables start empty and consistent |
| PeriodicTicks.SnapshotScheduler.Register | src/fuzzmeter/snapshot/scheduler.py:104-115 | the trial is active with its first tick one interval after its start, unless that is not before the end |
| PeriodicTicks.SnapshotScheduler.Unregister | src/fuzzmeter/snapshot/scheduler.py:117-121 | the trial leaves both tables, everything else stays |
| PeriodicTicks.SnapshotScheduler.Poll | src/fuzzmeter/snapshot/scheduler.py:300-322 | the emitted times grow by exactly what was due, and every next due time is later than now |
| PeriodicTicks.PolledConsistent | src/fuzzmeter/snapshot/scheduler.py:303-317 | a poll at any time keeps every registered trial on its grid, without gap or repeat |
| PeriodicTicks.RegisteredConsistent | src/fuzzmeter/snapshot/scheduler.py:104-115 | registering keeps every other trial on its grid |
| PeriodicTicks.SnapshotScheduler.EmittedExactly | src/fuzzmeter/snapshot/scheduler.py:300-322 | in every reachable state the i-th time emitted to a trial is start + (i+1)*every, before the campaign end |
| PeriodicTicks.SnapshotScheduler.NothingLeftMeansAllEmitted | src/fuzzmeter/snapshot/scheduler.py:313-316 | an active trial with nothing scheduled has been given every grid time before the campaign end |
| ReplayTimeline.Prepare | src/fuzzmeter/trial/replay.py:39-61 | file times are clamped to the start, and both ends of the range are floored to seconds |
| ReplayTimeline.TrialTicks | src/fuzzmeter/snapshot/scheduler.py:549-558 | the loop yields exactly the grid points strictly before the end, and the end |
| ReplayTimeline.BuildSchedule | src/fuzzmeter/snapshot/scheduler.py:546-559 | the schedule is strictly ascending and holds exactly the ticks of some trial |
| ReplayTimeline.ProcessTick | src/fuzzmeter/snapshot/scheduler.py:519-541 | one tick extends the history of exactly the selected trials, but for those a failure came before |
| ReplayTimeline.RunReplay | src/fuzzmeter/run/runner.py:292-323 | an empty trial list or an empty range is an error; otherwise every trial has the snapshot history of the schedule, or of the part before a stop or up to a failing tick; `ReplayContents` says what a history holds |
| ReplayTimeline.CutReplayIngestsOnce | src/fuzzmeter/snapshot/scheduler.py:515-541 | however the loop was cut short, a file is detected exactly when it lies up to the trial's last snapshot, never twice, and the last count is right |
| ReplayTimeline.HistoryChains | src/fuzzmeter/snapshot/collector.py:142-155 | the intervals of a trial's snapshots chain without gap or overlap from the second before its start |
| ReplayTimeline.CountsAdd | src/fuzzmeter/snapshot/collector.py:202 | corpus counts of adjacent intervals add up to the count of the whole |
| ReplayTimeline.HistoryCounts | src/fuzzmeter/snapshot/collector.py:202 | the running corpus count is the count of all corpus files covered so far |
| ReplayTimeline.ExactlyOneInterval | src/fuzzmeter/snapshot/collector.py:307-314 | a file is detected in some snapshot exactly when it lies in the covered stretch, and never in two |
| ReplayTimeline.IngestedExactlyOnce | src/fuzzmeter/snapshot/scheduler.py:511-559 | whatever ticks other trials add, every file up to the floored end is detected in exactly one tick, later ones in none, and the last count is the number of corpus files up to it |
| ReplayTimeline.AllIngestedExactlyWhen | src/fuzzmeter/trial/replay.py:60-61 | for a prepared trial under any schedule, every file is detected in some snapshot exactly when the latest time stamp is a whole second |
| ReplayTimeline.LateFileIsLost | src/fuzzmeter/trial/replay.py:61 | a crash one nanosecond into the last second appears in no snapshot |
| ReplayContents.PlannedTicks | src/fuzzmeter/snapshot/scheduler.py:546-559 | the schedule holds exactly the whole intervals after each start before its end, and the ends |
| ReplayContents.SnapshotsAtTicks | src/fuzzmeter/snapshot/scheduler.py:518-538 | a trial has a snapshot at exactly the ticks of the schedule from its start to its end |
| ReplayContents.SnapshotsOfReplay | src/fuzzmeter/snapshot/scheduler.py:505-559 | after a replay that ran to its end, a trial has a snapshot at exactly the planned ticks, of any trial, within its range |
| ReplayContents.SnapshotContents | src/fuzzmeter/snapshot/collector.py:307-314 | snapshots ascend, and each holds every file stamped since the one before, as often as the time line has it |
| ReplayContents.CountsArePositions | src/fuzzmeter/snapshot/collector.py:202 | the corpus count of each snapshot is the number of corpus positions of the time line up to its tick |
| ReplayContents.LastCountIsPositions | src/fuzzmeter/snapshot/collector.py:202 | the last snapshot lies at the end of the trial and counts all corpus positions up to there |
| JobAllocation.PreprocessSets | src/fuzzmeter/repro/ingest.py:110-114 | exactly the sets with a hook and a file take part, in order |
| JobAllocation.SelectHeaviest | src/fuzzmeter/repro/ingest.py:123-133 | the first of the expandable sets with the most files per job, or none when every set is saturated |
| JobAllocation.HeaviestMeaning | src/fuzzmeter/repro/ingest.py:130-133 | as real ratios: no expandable set has more files per job than the selected one, and none before it has as many |
| JobAllocation.Allocate | src/fuzzmeter/repro/ingest.py:119-135 | every set gets between one job and one per file; the total is the lesser of jobs and files when jobs cover the sets, else one each; the result is balanced |
| JobAllocation.BalancedKept | src/fuzzmeter/repro/ingest.py:130-134 | giving a job to the heaviest set keeps the allocation balanced |
| JobAllocation.MinimaxOptimal | src/fuzzmeter/repro/ingest.py:119-135 | no other allocation of the same total, nor any within the budget, has a smaller largest files-per-job ratio |
| JobAllocation.BudgetKept | src/fuzzmeter/repro/ingest.py:118-138 | hooks that can run at once together use at most the given jobs |
| JobAllocation.LoadOneByOne | src/fuzzmeter/repro/ingest.py:138-145 | every running hook adds its jobs to the load |
| ProfileMerge.MergeRound | src/fuzzmeter/resources/entrypoints/coverage_worker.py:464-479 | one round of chunks keeps the merged content and leaves strictly fewer files |
| ProfileMerge.MergeProfiles | src/fuzzmeter/resources/entrypoints/coverage_worker.py:462-484 | the rounds end, the result is the flat merge of all inputs, and no tool call gets more than a chunk of files |
| ProfileMerge.UsableRunsMeaning | src/fuzzmeter/repro/coverage_measure.py:434-435 | the usable inputs are the present files of more than 64 bytes, in order |
| ProfileMerge.SucceedsMeaning | src/fuzzmeter/repro/coverage_measure.py:259-362 | an attempt succeeds exactly with some usable input, no failing step and an output of more than 64 bytes; it publishes also when only the commit fails |
| ProfileMerge.CoverageState.Bootstrap | src/fuzzmeter/snapshot/coverage.py:271-287 | the completed seed profile is copied exactly when the trial has none; a copy that breaks off raises and leaves what it has written |
| ProfileMerge.CoverageState.MergeOnce | src/fuzzmeter/repro/coverage_measure.py:259-362 | a failure at any step leaves the cumulative profile alone; success replaces it by the merge of itself and the usable batches; the root is published exactly when that step was passed |
| ProfileMerge.CoverageState.Merge | src/fuzzmeter/repro/coverage_measure.py:221-254 | three attempts succeed exactly when one of them can, merge once, and leave no candidate behind |
| ProfileMerge.CoverageState.MeasureTick | src/fuzzmeter/snapshot/coverage.py:60-106 | one tick of one trial has exactly the effect of bootstrap and merge |
| ProfileMerge.TotalSplits | src/fuzzmeter/repro/coverage_measure.py:278 | the merge of the usable inputs is the old profile plus the usable batches |
| ProfileMerge.AccumulatesExactlyOnce | src/fuzzmeter/snapshot/coverage.py:250-254 | over any run of ticks with failing copies, batches and merges, the profile is the starting one (for a fresh trial, the file the first copy left) plus the usable batches of each successfully merged tick, each once |
| ProfileMerge.FreshTrialProfile | src/fuzzmeter/snapshot/coverage.py:271-287 | for a fresh trial whose seed copies do not break off, that is the seed profile plus those batches |
| ProfileMerge.SeedKeptExactlyWhen | src/fuzzmeter/snapshot/coverage.py:283-285 | the seed is part of a fresh trial's profile if and only if the first copy that left a file left the seed's content |
| ProfileMerge.BrokenCopyLosesSeed | src/fuzzmeter/snapshot/coverage.py:283-285 | a concrete run in which a broken copy loses the seed although the next tick merges |
| ProfileMerge.RootInStepExactlyWhen | src/fuzzmeter/repro/coverage_measure.py:360-361 | a root that showed the profile still does after a merge if and only if the merge succeeds, no attempt publishes, or nothing usable is added |
| ProfileMerge.RootRunsAhead | src/fuzzmeter/repro/coverage_measure.py:360-361 | a first attempt that fails at the commit, followed by two earlier failures, leaves the root ahead of the profile |
| OutputRoot.Move | src/fuzzmeter/repro/coverage_measure.py:479 | a rename carries the whole subtree and nothing else |
| OutputRoot.MoveBack | src/fuzzmeter/repro/coverage_measure.py:499-501 | a rename to a free place and back restores the file system exactly |
| OutputRoot.ForwardStep | src/fuzzmeter/repro/coverage_measure.py:476-480 | carrying one more directory into the tree leaves all others where they were |
| OutputRoot.BackwardStep | src/fuzzmeter/repro/coverage_measure.py:484-485 | giving it back undoes exactly that |
| OutputRoot.BackwardPossible | src/fuzzmeter/repro/coverage_measure.py:484-485 | during rollback the old place is always free and its parent in place |
| OutputRoot.OutputTree.Promote | src/fuzzmeter/repro/coverage_measure.py:489-504 | succeeds exactly when neither rename fails, then the tree is in place; a failure whose rollback succeeds changes nothing |
| OutputRoot.OutputTree.Rollback | src/fuzzmeter/repro/coverage_measure.py:484-485 | when no rename back fails, everything outside the tree is as before |
| OutputRoot.OutputTree.CarryAll | src/fuzzmeter/repro/coverage_measure.py:475-480 | succeeds exactly when every carried directory can move, and knows what has moved |
| OutputRoot.OutputTree.ReplaceOutRoot | src/fuzzmeter/repro/coverage_measure.py:472-486 | all or nothing: on success every carried directory below the old root is in the new one with all it holds, every other place holds what the tree has there, and the backup is gone as far as deletable; it succeeds when nothing is in the way; on failure with clean rollback everything outside the tree is restored |
| OutputRoot.PublishedMeaning | src/fuzzmeter/repro/coverage_measure.py:476-481 | the published root place by place, in terms of the old file system: carried directories keep their contents, the rest is the tree |
| OutputRoot.NothingInTheWayMeaning | src/fuzzmeter/repro/coverage_measure.py:476-481 | free targets with their parents in place and no failing rename are enough for every step to succeed |
| ConfigMerge.Merge | src/fuzzmeter/config/builder.py:27-41 | fails exactly when the mappings are incompatible, else yields their combination, whatever the key order |
| ConfigMerge.MergeOfLeaves | src/fuzzmeter/config/builder.py:30-40 | scalars of one type override and of two types fail, lists append, and any other two kinds of values fail |
| ConfigMerge.MergeOfMappings | src/fuzzmeter/config/builder.py:27-41 | mappings keep the keys of either side and merge the shared ones; they fail exactly when some shared key does |
| ConfigMerge.EmptyIsIdentity | src/fuzzmeter/config/builder.py:27-41 | the empty mapping is a two-sided identity |
| ConfigMerge.MergeAssociates | src/fuzzmeter/config/builder.py:27-41 | both groupings of three values fail together or agree |
| ConfigMerge.IncompatibleExactlyWhenClash | src/fuzzmeter/config/builder.py:30-31 | a merge fails exactly when the two disagree on a type at a shared path |
| ConfigMerge.CombinedAt | src/fuzzmeter/config/builder.py:33-40 | a merge holds at any path what its parts hold there, merged |
| ConfigMerge.FoldFailsExactlyWhen | src/fuzzmeter/config/builder.py:368-375 | the inheritance chain fails exactly when two of its layers disagree on a type at a shared path |
| ConfigMerge.FoldSplits | src/fuzzmeter/config/builder.py:368-375 | a chain may be merged in two parts split anywhere |
| ConfigMerge.FoldAt | src/fuzzmeter/config/builder.py:368-375 | each scalar is its most derived value, each list the concatenation from root to leaf, and no path appears or is lost |
| ConfigMerge.ScalarIsMostDerived | src/fuzzmeter/config/builder.py:368-375 | a scalar no later layer overrides is the one in the merged chain |
| ConfigMerge.PathsAreKept | src/fuzzmeter/config/builder.py:368-375 | the merged chain has a path exactly when some layer has it |
| ConfigMerge.GatheredSplits | src/fuzzmeter/config/builder.py:37-38 | the gathered list of a chain is that of its lower part followed by that of its upper part |
| ConfigMerge.ListsAppend | src/fuzzmeter/config/builder.py:37-38 | two layers with a list at a path hold the two lists appended there |
| ConfigMerge.LayersInOrder | src/fuzzmeter/config/builder.py:368-375 | the position of each mapping in the chain: root first, and the target override of a fuzzer right above its own settings |
| ConfigMerge.TargetScalarWins | src/fuzzmeter/config/builder.py:368-375 | a scalar of the topmost layer, at any path, is the one in the result |
| ConfigMerge.BuildCase | src/fuzzmeter/config/builder.py:358-384 | build and run configuration are the folds over the chain with the overrides of the target; every scalar the target sets for the requested fuzzer is in the result; the build fails only if a fold does |
| FuzzerGraph.EffectiveAllowed | src/fuzzmeter/config/builder.py:194-199 | a target is permitted exactly when the fuzzer's own list (if any) has it and the inherited restriction permits it |
| FuzzerGraph.EdgeMeaning | src/fuzzmeter/config/builder.py:224-251 | the graph leads from a configured fuzzer to its parent and its sources, and nowhere else |
| FuzzerGraph.RestrictionsInherit | src/fuzzmeter/config/builder.py:243 | a loaded fuzzer permits a target exactly when every fuzzer on its parent chain with a list of its own lists it |
| FuzzerGraph.UnfoldsOnce | src/fuzzmeter/config/builder.py:207-211 | a name has at most one fuzzer object, so sharing entries is sound |
| FuzzerGraph.UnfoldsIsLoadable | src/fuzzmeter/config/builder.py:202-254 | whatever was loaded has an acyclic and fully configured reachable graph |
| FuzzerGraph.Loader.Load | src/fuzzmeter/config/builder.py:202-254 | ends on any graph; a result is the unfolding of its definition, an error names a real cycle or a reachable unconfigured name |
| FuzzerGraph.Loader.LoadFuzzer | src/fuzzmeter/config/builder.py:266-299 | a top-level load succeeds if and only if the reachable parent and source graph is acyclic and fully configured; the fuzzer has the configured name, parent and sources in order |
| FuzzerDependencies.NoWayBack | src/fuzzmeter/config/models.py:88-96 | nothing below a loaded fuzzer leads back to it, so a pending item is never met again |
| FuzzerDependencies.DependencyWalk.Add | src/fuzzmeter/config/models.py:88-96 | adding an item lists only names it reaches, keeps names unique and parents first, and closes over everything not pending |
| FuzzerDependencies.Dependencies | src/fuzzmeter/config/models.py:82-99 | the list ends, holds each reachable name exactly once and no other, and each parent's name before its child's |
| ShutdownProtocol.StepInv | src/fuzzmeter/trial/runtime.py:121-150 | every atomic step keeps lock ownership, tracking of running containers and the sweep lists consistent |
| ShutdownProtocol.RunningIsTracked | src/fuzzmeter/trial/runtime.py:121-126 | in every reachable state each running container is in the active set |
| ShutdownProtocol.NothingRunsAfterSweep | src/fuzzmeter/trial/runtime.py:204-223 | once a sweep that took the lock after the stop event was set has finished, nothing runs then or in any later state |
| ShutdownProtocol.HolderCanMove | src/fuzzmeter/run/shutdown.py:46-60 | whoever holds the lock can take a step inside it, also a handler's sweep inside a sweep |
| ShutdownProgress.CheckDecides | src/fuzzmeter/trial/runtime.py:121-123 | a start goes on exactly when the stop event is not set, and otherwise gives the lock back |
| ShutdownProgress.RefusedOnlyForStop | src/fuzzmeter/trial/runtime.py:121-123 | in every run a start is refused only once the stop event is set |
| ShutdownProgress.StartReachesLive | src/fuzzmeter/trial/runtime.py:121-144 | without a stop, a start that has or finds the lock can reach a live trial with its container registered and running |
| ShutdownProgress.SweepReachesEnd | src/fuzzmeter/trial/runtime.py:204-223 | from every reachable state with a free lock a sweep can run to its end and leave nothing registered or running |
| WorkerBudget.LiveResourcePlan | src/fuzzmeter/run/runner.py:40-57 | the plan splits all jobs with at least one trial worker, honours a request, fails exactly when it would leave no trial worker, and by default gives a third to snapshots |
| WorkerBudget.StepKeepsTick | src/fuzzmeter/snapshot/scheduler.py:244-249 | a tick beyond its share runs only when no trial can register any more |
| WorkerBudget.BudgetNeverExceeded | src/fuzzmeter/snapshot/scheduler.py:104-121 | in every reachable state active trials plus the jobs of the tick in flight stay within the parallel jobs |
| WorkerBudget.LastWaveUsesAll | src/fuzzmeter/snapshot/scheduler.py:244-249 | a tick beginning after the last registration takes every free slot, any other tick exactly its share |
| CoverageCodec.OrOfDisjointBits | src/fuzzmeter/resources/entrypoints/coverage_sets.py:466 | or-ing in a shifted group equals adding it |
| CoverageCodec.ParseUvarint | src/fuzzmeter/resources/entrypoints/coverage_sets.py:460-480 | an encoded number parses back from the front of any bytes, with its exact length |
| CoverageCodec.ParseDigits | src/fuzzmeter/resources/entrypoints/coverage_sets.py:463-469 | reading stops at the first byte below 0x80, and each byte read gives seven bits of the number, lowest first |
| CoverageCodec.ParseBelow | src/fuzzmeter/resources/entrypoints/coverage_sets.py:463-469 | the number has no other bits |
| CoverageCodec.UvarintDigits | src/fuzzmeter/resources/entrypoints/coverage_sets.py:474-480 | byte i of an encoded number holds its bits from 7i on, with the high bit in all bytes but the last |
| CoverageCodec.UvarintIsShortest | src/fuzzmeter/resources/entrypoints/coverage_sets.py:474-480 | no encoded number ends in a byte of no bits, zero apart |
| CoverageCodec.UvarintExamples | src/fuzzmeter/resources/entrypoints/coverage_sets.py:474-480 | the example encodings of the standard |
| CoverageCodec.EncodeUvarint | src/fuzzmeter/resources/entrypoints/coverage_sets.py:474-480 | the loop writes the unsigned LEB128 groups, and a negative number is an error |
| CoverageCodec.DecodeUvarint | src/fuzzmeter/resources/entrypoints/coverage_sets.py:460-471 | the loop reads the number at the offset and the offset behind it, or reports truncation |
| CoverageCodec.EncodeDeltas | src/fuzzmeter/resources/entrypoints/coverage_sets.py:483-489 | succeeds exactly on naturals none of which is below the one before, and writes their differences |
| CoverageCodec.DeltaAppend | src/fuzzmeter/resources/entrypoints/coverage_sets.py:486-488 | one more value appends the encoded difference to the one before, the first its own encoding |
| CoverageCodec.DecodeDeltas | src/fuzzmeter/resources/entrypoints/coverage_sets.py:450-457 | yields the running sums of all numbers of the payload, or reports truncation |
| CoverageCodec.DeltaRoundTrip | src/fuzzmeter/resources/entrypoints/coverage_sets.py:450-489 | decoding the encoding of any ascending sequence of naturals returns it |
| CoverageCodec.DecodedIsAscending | src/fuzzmeter/resources/entrypoints/coverage_sets.py:450-457 | whatever decodes is ascending |
| CoverageCodec.RejectedExactlyWhenTruncated | src/fuzzmeter/resources/entrypoints/coverage_sets.py:460-471 | a payload is rejected exactly when its last byte announces another |
| CompositeKey.UnescapeEscape | src/fuzzmeter/composite/models.py:266-271 | unescaping undoes escaping for every string |
| CompositeKey.EscapeMeaning | src/fuzzmeter/composite/models.py:266-267 | escaping works character by character: percent signs and colons become their codes, everything else stays |
| CompositeKey.SplitJoin | src/fuzzmeter/composite/models.py:39-55 | splitting joined parts without colons gives them back |
| CompositeKey.IdMeaning | src/fuzzmeter/composite/models.py:39-47 | an id is the five escaped parts in their order with colons between them |
| CompositeKey.KeyRoundTrip | src/fuzzmeter/composite/models.py:39-55 | parsing a printed key returns it, whatever characters its five parts hold |
| CompositeKey.IdsAreInjective | src/fuzzmeter/composite/models.py:39-47 | different keys have different ids |
| CompositeKey.ParsesExactlyWhen | src/fuzzmeter/composite/models.py:50-55 | a string parses exactly when it has four colons |

## Left out

- Docker, subprocess and LLVM tool calls: each is a step that succeeds or fails by choice of an oracle; merging profiles is the sum of multisets of executions.
- SQLite and its queries: ticks, statuses and snapshots are values kept in sequences and maps, and their writes succeed.
- Floating point, `erf` and p-values: ranks, U values and scores are exact integers or fractions over reals; `clean_floats` and the removal of non-finite values come before the model. Files-per-job ratios are compared exactly, where the source divides floats.
- zlib, base64, JSON and hashing: inverse pairs or inputs outside the model.
- The live scan for new files by modification time, and the contents and effects of preprocess hooks: only which sets take part and their jobs are modelled.
- Progress reports, telemetry, logging, medians, notes and normalised matrices: presentation over the modelled figures.
- Trial labels are taken to be distinct, and the carried directories of an output root to lie apart from each other, as the callers make them.
- The order of detected files within one tick.
- YAML reading and the validation of single fields: definitions and layers arrive well formed; `local_repo_env` and the campaign's own overrides of a fuzzer are not modelled beyond the fuzzer that inherits a name.
- Fuzzer objects are values: two places that share one object hold equal values, and identity is not modelled.
- Signal delivery and the immediate exit on a second signal: a sweep may be entered inside another and any sweep may be cut short.
- Interrupts that are not ordinary exceptions during a merge or a publication, and copies of single artifacts into the new root.
- RankStatistics.MannWhitney: stops at U and the exact variance; the z score, `erf` and the p-value need floating point.
- TickLifecycle.FailureAbortsTheRest: says what one finished run shows; for which schedulers the abort is certain is stated exactly by `TickGuarantees`.
- OutputRoot.OutputTree.ReplaceOutRoot: after a failure the contents of the temporary tree itself are not stated, because an empty directory there may have been replaced by a carried one; the next attempt deletes the tree.
