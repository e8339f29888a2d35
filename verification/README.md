# Verified model of A-Tune's scheduler and tuning engines

A-Tune places threads on CPUs and searches for good system parameters. This project models the parts
of it whose correctness is hard to see, in Dafny, and proves what they promise. `dafny verify
dfyconfig.toml` checks everything.

## The modules

- `Words`, `Cpumasks`: a CPU set of 640 bits in ten machine words, refined to a mathematical set. Hex
  parsing, the population count, the halving search for the lowest bit and the iteration over members
  are proved against it.
- `Topology`, `TopologyInit`: the tree of CPU, core, cluster, NUMA node, chip and system, with nodes
  linked on the heap. The tree is built from mask files and deduplicated by mask, and its counters are
  kept by walking parent links.
- `NumaAware`, `ScheduleManager`: which CPU each task gets while CPUs that serve network interrupts
  are avoided, the kernel's affinity mask, and the record of bindings.
- `Protocol`: the tuning server with its PUT handler and the optimizer process, as steps over the two
  directions of a pipe, in any interleaving.
- `AbTest`, `GridSearch`, `KnobTraverse` (with `Measurements`, `Dicts`, `Sorting`): three search
  engines. Coordinate descent, the in-place expansion of a grid, and the one-knob-at-a-time ranking.
- `LongMultiplication` (with `Texts`): schoolbook multiplication on decimal texts.
- `ProfileLoader`: loading profiles with what they include, and merging sections that are shared
  between a profile's list of units and its file.
- `ClusterSync`: loading and merging the requested projects, whose objects are laid out over address
  groups; another function recomputes where they are and sends each node its scripts.
- `FeatureFilter`, `Score`: selecting parameters over several cycles, and the weighted score of a
  benchmark.

`Prelude` holds what several of them share. The outside world is a function given as an argument: the
topology files (`System`), the profile files (`load`), the benchmark (`bench`), the nodes that cannot
be reached (`fails`). Floating point numbers are `real`. Go's `uint64` is a number below 2^64 with its
operators written out, and Go's integer division truncates. A Go panic or a Python exception is a
result of its own where the caller can meet it.

## What the proofs brought to light

The model does what the code does. Where that is not what the code or its comments promise, the exact
condition is proved.

- The lock-step protocol deadlocks if the search starts at iteration 0, evaluates anything, and its
  first suggestion violates the project's relations. The tuner then puts the threshold for iteration 0
  again, whose value the handler does not forward (`Protocol.CompletesIffGood`).
- Setting an affinity panics exactly if CPU 639 is in the mask, because the scan then reads an
  eleventh word (`ScheduleManager.ListCpus`, `ScheduleManager.LastCpuPanics`).
- The comment on `loadProfile` says that a profile is not overridden by those it includes. That holds
  for units; an option is overridden by the last profile that sets it (`ProfileLoader.OptionKeptIff`,
  `ProfileLoader.IncludedOptionOverrides`).
- `get_multiple_res` adds up the digits behind the dots of all values so far, so a value after a
  dotted one is scaled wrongly (`LongMultiplication.RightIffNoEarlierFraction`,
  `LongMultiplication.DotsAddUp`). Its caller passes values without dots.
- The scan of the traverse engine runs past the last result exactly if the last run is the only run of
  a range knob named "None" (`KnobTraverse.ScanAll`, `KnobTraverse.OneKnobNamedNone`).
- A resumed grid search picks the best of the resumed rows only. It is the best of the grid for every
  benchmark exactly if every skipped row is tried again (`GridSearch.PickIsBestIff`), which with
  distinct items means not resumed (`GridSearch.PickIsBestIffNotResumed`).
- The cluster layout fits the recomputed indices exactly if there is one address group, or no object
  comes with its clusters given and at most one of the requested projects has objects
  (`ClusterSync.LayoutFitsIff`). Objects that come with clusters break it in
  `ClusterSync.GivenObjectMistaken`; two projects, which are laid out one after the other, in
  `ClusterSync.TwoProjectsMistaken`, and a node then gets "no operation" for an object that is for it
  (`ClusterSync.SecondProjectNotSent`).
- The server sends itself no scripts and runs only those of the first address group, so as a member of
  a later group it gets none (`ClusterSync.ServerRunsFirstGroup`, `ClusterSync.EveryNodeIsSent`). Without
  a configured address it does not run an object whose own name ends in a hyphen and a number other than
  zero (`ClusterSync.ServerRunsGiven`).
- Scripts are collected without those of skipped objects, but indexed like the objects. They belong
  together exactly if no skipped object is before another that is not (`ClusterSync.InPlaceIff`), which
  with several groups means that none is skipped or all are (`ClusterSync.SkippedInPlaceIff`).
- The two scripts of a restart are divided up like those of the objects: a node gets both exactly if
  there is one address group and the first two objects are for the node
  (`ClusterSync.BothRestartScriptsIff`). With one object and one group the program panics
  (`ClusterSync.RestartPanicsIff`).
- The guard for another selection cycle counts the objects skipped from the start, and there is no guard
  before the first cycle or before the filtering after the final tuning. The condition under which no
  filtering of a tuning exceeds its ranking is `FeatureFilter.TuningSafeIff`; tunings in which one does
  are `FeatureFilter.SecondCycleFails` and `FeatureFilter.FinalFilteringFails`.
- The filtering after the final tuning selects parameters again that the cycles have selected. When it
  does is `FeatureFilter.TuningRepeatsIff`; a tuning in which it does is `FeatureFilter.SelectedTwice`.
- Profiles that include each other in a circle are loaded forever, as the names processed are never
  looked at (`ProfileLoader.LoadsIffNoCircle`).
- The topology is built for CPU numbers below the count of usable CPUs, so an online CPU numbered from
  that count on has no leaf (`TopologyInit.AllOnlineHaveLeavesIff`). The map from NUMA ids finds the
  right nodes exactly if ids and masks correspond (`TopologyInit.TopoTree.InitTopo`).
- Binding the same tasks again changes nothing exactly if no pid is listed with two nodes
  (`ScheduleManager.RebindingIsIdleIff`, `ScheduleManager.DuplicatePidRebinds`).

## Model

| member | source | states |
|---|---|---|
| Protocol.StepInv | analysis/engine/optimizer.py:52-113 | every step of the server, the handler or the engine keeps the balance of suggestions, values and messages in flight |
| Protocol.LockStep | analysis/engine/optimizer.py:89-113 | in every interleaving the k-th value the engine gets is the one put for the k-th parameter set it sent, and the pipe holds at most two messages out and one in |
| Protocol.FinishedAfterAllValues | analysis/optimizer/optimizer.py:210-231 | the tuner learns of the end only when the engine has received the values of all its evaluations, in order, and nothing is in flight |
| Protocol.IterationsAreCounted | common/tuning/optimizer.go:362-365 | in every run the tuner's iteration is the first one and the number of suggestions read that satisfy the relations |
| Protocol.NeverStuck | analysis/engine/utils/save_data.py:31-61 | a run that has not ended can go on, if the configuration is good |
| Protocol.RunsEnd | analysis/optimizer/optimizer.py:210-231 | no run is longer than 4 * evaluations + 7 steps |
| Protocol.NoFailureNoAbort | analysis/optimizer/optimizer.py:367-378 | only a failure of the engine aborts the tuning |
| Protocol.FailureAborts | analysis/engine/optimizer.py:75-106 | if the engine fails, at whatever point, the tuner has aborted when the run is complete |
| Protocol.FailsAtOnce | analysis/optimizer/optimizer.py:367-370 | the engine may fail from the start |
| Protocol.DeadlockRun | analysis/engine/utils/save_data.py:47-57 | a configuration that is not good has a run into a state where both sides wait for each other |
| Protocol.CompletesIffGood | common/tuning/optimizer.go:356-359 | every complete run without engine failure ends with the tuner told so exactly if nothing is evaluated, the first iteration is not 0, or the first suggestion satisfies the relations |
| Words.ClearLowest | common/cpumask/cpumask.go:115-124 | the word `w & (w - 1)` lacks exactly one bit of `w`, the lowest |
| Words.LowMaskIsRemainder | common/cpumask/cpumask.go:135-173 | masking with `2^n - 1` is the remainder modulo `2^n` |
| Cpumasks.MembersDetermine | common/cpumask/cpumask.go:52-60 | two masks hold the same CPUs exactly if their words are equal |
| Cpumasks.OneMaskWeight | common/cpumask/cpumask.go:115-124 | Kernighan's loop counts the bits of a word |
| Cpumasks.Weight | common/cpumask/cpumask.go:126-133 | the weight of a mask is the number of its CPUs |
| Cpumasks.NarrowStep | common/cpumask/cpumask.go:135-173 | a halving step keeps the lowest bit within the bits still looked at |
| Cpumasks.LowBit | common/cpumask/cpumask.go:135-173 | the least set bit of a word, or -1 for the zero word |
| Cpumasks.IsEqual | common/cpumask/cpumask.go:52-60 | true exactly if the masks hold the same CPUs |
| Cpumasks.Foreach | common/cpumask/cpumask.go:175-192 | the least member above the start, -1 if there is none, and an index panic for the word after the last |
| Cpumasks.HexTable | common/cpumask/cpumask.go:91-113 | the sixteen digits of either case are worth their places in the table, and nothing else is a digit |
| Cpumasks.HexTextDenotes | common/cpumask/cpumask.go:91-113 | a number written in hex is read back |
| Cpumasks.HexValueConcat | common/cpumask/cpumask.go:91-113 | a hex text cut in two denotes its left part shifted by four bits per digit of its right part, plus that part |
| Cpumasks.TailIsRemainder | common/cpumask/cpumask.go:91-113 | reading the last 160 digits is taking the number modulo 2^640 |
| Cpumasks.ValueBitAt | common/cpumask/cpumask.go:91-113 | the bits of the number that words denote are the bits of the words |
| Cpumasks.ParsedMembers | common/cpumask/cpumask.go:91-113 | a parsed mask holds exactly the bits below 640 of the hex number |
| Cpumasks.Cpumask.ParseString | common/cpumask/cpumask.go:91-113 | parsing succeeds exactly for a non-empty text whose last 160 characters are hex digits, and then the words denote the value of those; else the chunks before the first bad one stay in the mask |
| Cpumasks.MaskHoldsRead | common/cpumask/cpumask.go:91-113 | after a success or a failure the mask holds the CPUs of the hex digits read until the parse stopped |
| Cpumasks.Cpumask.And | common/cpumask/cpumask.go:38-43 | intersection of the CPU sets |
| Cpumasks.Cpumask.Or | common/cpumask/cpumask.go:45-50 | union of the CPU sets |
| Cpumasks.Cpumask.Set | common/cpumask/cpumask.go:62-71 | adds a CPU from 0 to 639 and ignores any other number |
| Cpumasks.Cpumask.Clear | common/cpumask/cpumask.go:73-82 | removes a CPU and ignores any number out of range |
| Topology.AncestorStep | common/topology/topology.go:572-580 | the parent chain passes through the levels one by one |
| Topology.GainKeepsAggregated | common/topology/topology.go:418-438 | if every node gains its leaves' share, every counter stays the sum over the leaves below |
| Topology.ShareIsGain | common/topology/topology.go:406-438 | climbing from every CPU below a node gives each node of the tree the share of the leaves it has below that node |
| Topology.AddKeepsAggregated | common/topology/topology.go:425-438 | one call keeps load, idle and irq of every node the sums over its leaves |
| Topology.TopoNode.Climb | common/topology/topology.go:425-434 | exactly the nodes on the parent chain of a CPU gain the amount |
| Topology.TopoNode.AddCounter | common/topology/topology.go:425-438 | every node of the tree gains the truncated share of each of its CPUs that is below the called node, in one counter only |
| Topology.TopoNode.SubCounter | common/topology/topology.go:440-443 | adds the negated amount |
| Topology.TopoNode.SetCounter | common/topology/topology.go:445-448 | adds the difference to the node's present value |
| Topology.TopoNode.Parent | common/topology/topology.go:572-580 | the ancestor of the wanted level, the node included, or none below the node's own level |
| Topology.TopoNode.GetAllCpusForNode | common/topology/topology.go:666-676 | appends the CPU list of the subtree to the nodes found so far |
| Topology.CpuListIsLeaves | common/topology/topology.go:666-676 | that list holds each CPU below the node exactly once |
| Topology.RunCounterOps | common/topology/topology.go:425-534 | any run of add, subtract and set calls on any nodes keeps every counter the sum over the CPUs below |
| Topology.AddThenSub | common/topology/topology.go:425-443 | adding and subtracting the same amount on a node restores every counter of the tree |
| Topology.OwnGain | common/topology/topology.go:425-438 | the called node gains its leaves times the truncated share, which is never more than the amount and misses it by less than its weight, if every CPU of its mask is a leaf |
| Topology.TruncationError | common/topology/topology.go:425-438 | a truncated share times the weight is on the side of zero of the amount, and less than the weight away from it |
| TopologyInit.StripJoined | common/topology/topology.go:204-209 | the commas between the words and the newline behind them are dropped, and nothing else |
| TopologyInit.MaskOfFile | common/topology/topology.go:204-209 | a mask file with a number in hex, in words with commas between them, gives exactly the CPUs that are bits of the number |
| TopologyInit.MaskOfCpu | common/topology/topology.go:274-283 | a cluster is the aligned block of four CPUs, and a CPU is alone in its own mask |
| TopologyInit.GetMaskFromFile | common/topology/topology.go:204-209 | the mask is what the file denotes once the commas and the line end are dropped, and what was read of it if it does not parse |
| TopologyInit.GetClusterMask | common/topology/topology.go:274-283 | a cluster is the aligned block of four CPUs |
| TopologyInit.TopoTree.FindTypeTopoNode | common/topology/topology.go:298-311 | a node of the level with this set of CPUs, or none if there is none |
| TopologyInit.ChainMasks | common/topology/topology.go:592-641 | every ancestor of a leaf stands for its CPU's class on that level |
| TopologyInit.BelowIffInMask | common/topology/topology.go:592-641 | a leaf is below a node exactly if its CPU is in the node's mask |
| TopologyInit.AttachKeepsBuilt | common/topology/topology.go:609-640 | attaching a new node keeps the tree, its level lists and the uniqueness of masks |
| TopologyInit.FourCpusNested | common/topology/topology.go:204-283 | a system of two cores whose mask files make nested classes, as building the tree requires |
| TopologyInit.TopoTree.InitTopo | common/topology/topology.go:592-641 | for nested classes of CPUs: one leaf per online CPU numbered below the count of usable CPUs, its chain of core, cluster, NUMA node and chip, each class listed once per level, leaves below a node exactly its mask, counters aggregated, ids of cores, NUMA nodes and chips from the files of one of their CPUs and those of clusters from the CPU number, and the map holding under each CPU's NUMA id the NUMA node above its leaf exactly if ids and NUMA masks correspond |
| TopologyInit.AllOnlineHaveLeavesIff | common/topology/topology.go:602-607 | every online CPU has a leaf exactly if none is numbered from the count of usable CPUs on |
| NumaAware.UsableFits | common/schedule/plugins/numaaware/numaaware.go:174-194 | the CPUs a scan takes are distinct, from the list, and within the budget of interrupt CPUs |
| NumaAware.UsableCount | common/schedule/plugins/numaaware/numaaware.go:174-194 | a scan finds all ordinary CPUs and interrupt CPUs up to the budget |
| NumaAware.SharedPlacement | common/schedule/plugins/numaaware/numaaware.go:174-194 | with at least as many CPUs as tasks every task gets its own CPU, and at most max(0, tasks + interrupt CPUs - CPUs) of them are interrupt CPUs |
| NumaAware.AnyPlacementNeeds | common/schedule/plugins/numaaware/numaaware.go:174-194 | any placement on distinct CPUs uses as many interrupt CPUs as the tasks exceed the ordinary CPUs |
| NumaAware.SharedPlacementIsOptimal | common/schedule/plugins/numaaware/numaaware.go:174-194 | no placement on distinct CPUs uses fewer interrupt CPUs, if they are all in the subtree |
| NumaAware.ExclusivePlacement | common/schedule/plugins/numaaware/numaaware.go:196-211 | with tasks + interrupt CPUs <= CPUs every task gets its own CPU and none is an interrupt CPU |
| NumaAware.GiveCpus | common/schedule/plugins/numaaware/numaaware.go:179-193 | the counting loop places the tasks as a first-fit scan with that budget does |
| NumaAware.GiveOrdinaryCpus | common/schedule/plugins/numaaware/numaaware.go:201-210 | the loop without sharing is the scan with budget zero |
| NumaAware.NumaAwarePlugin.BindTaskSharedIrq | common/schedule/plugins/numaaware/numaaware.go:174-194 | the tasks' nodes are those of a scan of the subtree's CPUs with the computed budget: where the ordinary CPUs do not suffice and all CPUs do, every task gets its own CPU and just the missing ones are interrupt CPUs |
| NumaAware.NumaAwarePlugin.BindTaskNoSharedIrq | common/schedule/plugins/numaaware/numaaware.go:196-211 | the tasks' nodes are those of a scan that takes no interrupt CPU: where the ordinary CPUs suffice every task gets its own |
| NumaAware.NumaAwarePlugin.PickUnderLowLoad | common/schedule/plugins/numaaware/numaaware.go:146-158 | with fully online, symmetric NUMA nodes every task gets its own CPU of the NUMA node, or else of its chip, without interrupt CPUs where they can be avoided, and with just the missing ones under light load; else all tasks get the root |
| NumaAware.NumaAwarePlugin.PickUnderHighLoad | common/schedule/plugins/numaaware/numaaware.go:159-171 | all tasks and their new threads, each of which is a task now, get the NUMA node or else the chip if its CPUs carry more than the load, or else the root |
| NumaAware.HighLoadNodeIsSmallest | common/schedule/plugins/numaaware/numaaware.go:159-171 | on symmetric nodes that is the first of them whose CPUs besides the interrupt CPUs carry more than the load |
| NumaAware.NumaAwarePlugin.PickNodeForTask | common/schedule/plugins/numaaware/numaaware.go:145-172 | up to 110 percent the load counts as low |
| NumaAware.NumaAwarePlugin.UpdateTask | common/schedule/plugins/numaaware/numaaware.go:220-248 | the new tasks are exactly the threads not seen before, one each, on the root, and the seen threads grow by exactly all threads of the tasks |
| ScheduleManager.ListCpus | common/schedule/schedule_manager.go:307-315 | the affinity loop ends with every CPU of the mask once, ascending, and panics exactly if CPU 639 is in the mask |
| ScheduleManager.LastCpuPanics | common/schedule/schedule_manager.go:307-315 | the failing case: a mask with CPU 639 alone |
| ScheduleManager.KernelMask | common/sched/sched.go:32-42 | the kernel mask holds exactly the given CPUs |
| ScheduleManager.SetTaskAffinity | common/schedule/schedule_manager.go:307-318 | the kernel receives exactly the node's mask |
| ScheduleManager.CountsGrowByMoves | common/schedule/schedule_manager.go:320-331 | a node's bind count grows by exactly the number of tasks whose record changed to it |
| ScheduleManager.CountsStayCovered | common/schedule/schedule_manager.go:320-331 | no node ever has fewer binds than pids recorded on it |
| ScheduleManager.RunRecordsIff | common/schedule/schedule_manager.go:320-331 | after a call every task is recorded on its node exactly if no pid is listed with two nodes |
| ScheduleManager.NewPidsAreCounted | common/schedule/schedule_manager.go:320-331 | for consistent lists a node's count grows by one for each pid that is new on it |
| ScheduleManager.CountsFromStart | common/schedule/schedule_manager.go:320-331 | from an empty record the counts are then the numbers of pids recorded |
| ScheduleManager.IdleIffRecorded | common/schedule/schedule_manager.go:320-339 | a call leaves the record and every count as they were exactly if all its tasks were recorded |
| ScheduleManager.RebindingIsIdleIff | common/schedule/schedule_manager.go:320-339 | repeating a call changes nothing exactly if no pid is listed with two nodes |
| ScheduleManager.DuplicatePidRebinds | common/schedule/schedule_manager.go:320-339 | the failing case: a pid listed with two nodes and recorded on the second is bound on both again |
| ScheduleManager.Binder.IsThreadBind | common/schedule/schedule_manager.go:333-339 | true exactly if binding the task would change neither the record nor a count |
| ScheduleManager.Binder.BindTaskToTopoNode | common/schedule/schedule_manager.go:320-331 | records and counts become those of binding the tasks one after another |
| ScheduleManager.UpdateNodeLoad | common/schedule/schedule_manager.go:341-358 | every leaf holds its CPU's sample and every node the sum of the samples below it |
| Measurements.SumConcat | analysis/optimizer/abtest_tuning_manager.py:106-111 | the sum of two lists of values is the sum of both |
| Measurements.SumIsMonotone | analysis/optimizer/abtest_tuning_manager.py:106-111 | values none of which is larger have a sum that is not larger, and a smaller one if a value is smaller |
| AbTest.StageMinimaDescend | analysis/optimizer/abtest_tuning_manager.py:114-138 | the minimum of a stage is never above that of an earlier stage |
| AbTest.BestIsRetried | analysis/optimizer/abtest_tuning_manager.py:77-86 | the best trial of a stage is tried again by the next |
| AbTest.BestAttainsMinimum | analysis/optimizer/abtest_tuning_manager.py:114-138 | the final best vector was tried and attains the minimum over every vector tried; no other has values none of which is larger and one smaller |
| AbTest.PickedMeasuresAsBest | analysis/optimizer/abtest_tuning_manager.py:140-154 | the parameters picked from the record measure the same as the final best vector |
| AbTest.MeasuredPerTrial | analysis/optimizer/abtest_tuning_manager.py:114-138 | there is one result per trial, its own, and as many trials as items |
| AbTest.ABtestTuningManager.constructor | analysis/optimizer/abtest_tuning_manager.py:53-75 | the announced budget is the number of items of all knobs |
| AbTest.ABtestTuningManager.ConstructSetKnobValVec | analysis/optimizer/abtest_tuning_manager.py:77-86 | best items so far, the item, then first items |
| AbTest.ABtestTuningManager.DoOneAbtestTuning | analysis/optimizer/abtest_tuning_manager.py:114-130 | the stage appends its trials and results and keeps the first best item |
| AbTest.ABtestTuningManager.DoAbtestTuning | analysis/optimizer/abtest_tuning_manager.py:132-138 | the search leaves the specified best vector, trials and results, as many as announced |
| AbTest.ABtestTuningManager.GetBestParams | analysis/optimizer/abtest_tuning_manager.py:140-154 | a tried vector with the smallest result, equal to that of the best vector, and not beaten value by value by another one tried |
| Dicts.AssignedKnown | analysis/optimizer/gridsearch_tuning_manager.py:82-83 | assigning a known key keeps its place |
| Dicts.AssignedNew | analysis/optimizer/gridsearch_tuning_manager.py:82-83 | assigning a new key appends it |
| GridSearch.GridAt | analysis/optimizer/gridsearch_tuning_manager.py:70-84 | the grid holds, at every position, the row of the choice with that mixed-radix number, and nothing else |
| GridSearch.PositionOfChoice | analysis/optimizer/gridsearch_tuning_manager.py:70-84 | positions and choices correspond one to one, from positions |
| GridSearch.ChoiceOfPosition | analysis/optimizer/gridsearch_tuning_manager.py:70-84 | and from choices |
| GridSearch.GridHasEveryChoice | analysis/optimizer/gridsearch_tuning_manager.py:70-84 | every choice of items has its row in the grid, at its position; their number is the product of the sizes |
| GridSearch.GridRowsDiffer | analysis/optimizer/gridsearch_tuning_manager.py:70-84 | with distinct items no row occurs twice |
| GridSearch.GridIsLexicographic | analysis/optimizer/gridsearch_tuning_manager.py:70-84 | positions follow the lexicographic order of choices |
| GridSearch.RowsShareKeys | analysis/optimizer/gridsearch_tuning_manager.py:123-138 | all rows list their keys in the same order, so the names of one row fit the items of any other |
| GridSearch.AssignedReused | analysis/optimizer/gridsearch_tuning_manager.py:80-83 | assigning to a dictionary that still has the key of the last round gives the same row as a new one would |
| GridSearch.ExpandParameters | analysis/optimizer/gridsearch_tuning_manager.py:70-84 | new, unshared dictionaries showing the whole grid, an index error exactly for no parameter, and an argument popped down to its last parameter |
| GridSearch.GridSearchTuningManager.DoGridsearch | analysis/optimizer/gridsearch_tuning_manager.py:86-121 | announces the size of the grid and tries the rows after those done, in order |
| GridSearch.GridSearchTuningManager.GetBestParams | analysis/optimizer/gridsearch_tuning_manager.py:123-138 | a row of the grid with the smallest result among the rows of this run, and not beaten value by value by another of them |
| GridSearch.PickIsBestIff | analysis/optimizer/gridsearch_tuning_manager.py:86-127 | the picked row is the best of the grid for every benchmark exactly if every skipped row is tried again under another position |
| GridSearch.PickIsBestIffNotResumed | analysis/optimizer/gridsearch_tuning_manager.py:86-127 | with distinct items that is exactly if the run was not resumed |
| GridSearch.ResumedGridIsWhole | analysis/optimizer/gridsearch_tuning_manager.py:86-121 | the options and results of a manager stopped after some rows and of one resumed there are together those of every row of the grid, in order |
| KnobTraverse.ValuesTried | analysis/optimizer/knob_traverse_manager.py:76-90 | a knob is set to its options, or to the largest and the smallest bound of its range, an odd last one aside, and not to its default |
| KnobTraverse.WithoutConcat | analysis/optimizer/knob_traverse_manager.py:76-90 | the values other than the default keep their order |
| KnobTraverse.TrialVariesOneKnob | analysis/optimizer/knob_traverse_manager.py:63-100 | every trial but the first differs from the defaults in exactly its recorded knob |
| KnobTraverse.RunsOfKnob | analysis/optimizer/knob_traverse_manager.py:91-95 | the runs of a knob stand together at its start |
| KnobTraverse.TrialsOfKnob | analysis/optimizer/knob_traverse_manager.py:91-95 | each value to try of each knob has its trial at its place |
| KnobTraverse.ValuesToTry | analysis/optimizer/knob_traverse_manager.py:76-89 | the options, or the ends of the range, that differ from the default; an error exactly for a range without a pair of bounds |
| KnobTraverse.KnobTraverseManager.GetTraverseList | analysis/optimizer/knob_traverse_manager.py:63-100 | the trials of all knobs after the baseline, their recorded knobs, and their number as budget |
| KnobTraverse.EndOfRuns | analysis/optimizer/knob_traverse_manager.py:158-161 | the inner loop stops at the end of the knob's runs |
| KnobTraverse.ScanRange | analysis/optimizer/knob_traverse_manager.py:170-189 | a range knob consumes its one or two runs, or runs past the last result exactly in the one bad case |
| KnobTraverse.ScanAll | analysis/optimizer/knob_traverse_manager.py:152-189 | the index-skipping scan stays in bounds and meets every tried knob once, unless the last run is the only run of a range knob named "None" |
| KnobTraverse.OneKnobNamedNone | analysis/optimizer/knob_traverse_manager.py:152-189 | a valid setup in which the last run is the only run of a range knob named "None" |
| KnobTraverse.BestIsLeast | analysis/optimizer/knob_traverse_manager.py:162-189 | a knob's best result is the least of its runs, with the baseline for options |
| KnobTraverse.SpreadIsLargest | analysis/optimizer/knob_traverse_manager.py:162-189 | a knob's spread is the largest distance between its results, among which the baseline is unless a range has two runs |
| KnobTraverse.PlacesIgnoreOrder | analysis/optimizer/knob_traverse_manager.py:191-196 | the places of the knobs do not depend on the order of the scan, as entries of different names never tie |
| KnobTraverse.RankSumIsPlaces | analysis/optimizer/knob_traverse_manager.py:198-207 | a knob's rank is the sum of its places in the two orders |
| KnobTraverse.RankSumsTotal | analysis/optimizer/knob_traverse_manager.py:198-207 | the ranks of n knobs total n(n + 1) |
| KnobTraverse.RankingIsPermutation | analysis/optimizer/knob_traverse_manager.py:209-213 | the ranking lists each tried knob once, scored n down to 1 |
| KnobTraverse.RankedBySums | analysis/optimizer/knob_traverse_manager.py:208-213 | the ranking goes by rank sum, and among equal sums by the best result |
| KnobTraverse.BetterKnobScoresHigher | analysis/optimizer/knob_traverse_manager.py:191-213 | a knob with a better best result and a wider spread than another is scored higher |
| KnobTraverse.KnobTraverseManager.GetTraverseRank | analysis/optimizer/knob_traverse_manager.py:146-215 | the ranking of the scanned results, or failure exactly in the one bad case |
| Sorting.TextLessDecided | analysis/optimizer/knob_traverse_manager.py:192-196 | names are ordered by the first character that differs, a beginning first |
| Sorting.SortedIsInOrder | analysis/optimizer/knob_traverse_manager.py:191-196 | no entry of a sorted list has to precede an earlier one |
| Sorting.SortedIsPermutation | analysis/optimizer/knob_traverse_manager.py:209-211 | sorting permutes |
| Sorting.StrictlySortedIsUnique | analysis/optimizer/knob_traverse_manager.py:191-196 | there is one way to sort elements that never tie |
| Texts.DigitTable | analysis/engine/utils/utils.py:139-170 | decimal digits are worth their places in the table, and are written as they are read |
| LongMultiplication.DigitAdded | analysis/engine/utils/utils.py:156-159 | adding a product of two digits to its cell adds it at its power of ten |
| LongMultiplication.AddRows | analysis/engine/utils/utils.py:156-159 | after the first pass the cells denote the product |
| LongMultiplication.CarryKeeps | analysis/engine/utils/utils.py:161-163 | moving a carry keeps the number |
| LongMultiplication.Carry | analysis/engine/utils/utils.py:161-163 | the second pass keeps the number and leaves every cell but the first below ten |
| LongMultiplication.FirstCellIsDigit | analysis/engine/utils/utils.py:161-163 | the first cell is below ten too |
| LongMultiplication.Multiply | analysis/engine/utils/utils.py:153-163 | digits denoting the product, a value error exactly for a character that is no digit and is reached |
| LongMultiplication.StripZerosIsCanonical | analysis/engine/utils/utils.py:165-169 | stripping leading zeros gives the canonical text, empty for zero |
| LongMultiplication.ChopDivides | analysis/engine/utils/utils.py:166-167 | dropping the last characters rounds the number down |
| LongMultiplication.RoundedIsQuotient | analysis/engine/utils/utils.py:166-167 | which is the quotient by the power of ten |
| LongMultiplication.Emit | analysis/engine/utils/utils.py:165-169 | the text of the cells is the canonical decimal of the rounded number, and denotes it |
| LongMultiplication.GetMultipleRes | analysis/engine/utils/utils.py:139-171 | the texts of all values separated by spaces, or the error of the first value that has one |
| LongMultiplication.CombinedIsFirstError | analysis/engine/utils/utils.py:148-171 | the result is an error exactly if a value has one, and then the first |
| LongMultiplication.CombinedIsJoined | analysis/engine/utils/utils.py:139-170 | without an error the result is the texts with spaces between them |
| LongMultiplication.ErrorsOfOutcome | analysis/engine/utils/utils.py:139-170 | a value error comes exactly of a value that is not empty with a character, or a multiplier's, that is no digit; an index error exactly of two empty ones |
| LongMultiplication.DigitsAreMultiplied | analysis/engine/utils/utils.py:123-132 | for the values of digits the caller passes each text is the product with the multiplier, rounded down |
| LongMultiplication.DottedMultiplier | analysis/engine/utils/utils.py:139-171 | for a multiplier with a dot the digits behind the dot are rounded away |
| LongMultiplication.WholeMultiplier | analysis/engine/utils/utils.py:139-171 | for a whole multiplier each text is the product itself |
| LongMultiplication.RightIffNoEarlierFraction | analysis/engine/utils/utils.py:148-152 | with dotted values a result is right exactly if no earlier value had digits behind its dot or the exact result is zero |
| LongMultiplication.DotsAddUp | analysis/engine/utils/utils.py:148-152 | 1 times the values 1.5 and 2.5 gives 0 for the second instead of 2 |
| ProfileLoader.MergedKeysFind | common/profile/loader.go:132-139 | a key keeps its first value |
| ProfileLoader.MergedUnitsGet | common/profile/loader.go:120-141 | merging in a profile gives a unit key a value only where it had none |
| ProfileLoader.MergeKeepsFirst | common/profile/loader.go:89-163 | every unit key has the value of the first profile in the list that defines it |
| ProfileLoader.OptionsKeepLast | common/profile/loader.go:103-118 | an option has the value of the last profile that sets it |
| ProfileLoader.OptionKeptIff | common/profile/loader.go:103-118 | an option of the main profile survives exactly if no later profile sets it or the last that does sets the same value |
| ProfileLoader.IncludedOptionOverrides | common/profile/loader.go:44-48 | an included profile overrides an option of the profile that includes it |
| ProfileLoader.NearestValueWins | common/profile/loader.go:45-76 | a profile's own value goes before what it inherits, and that before what the next names have |
| ProfileLoader.FirstDefinedIsInherited | common/profile/loader.go:49-76 | the first definition in the loaded list is the value inherited along the includes |
| ProfileLoader.MergedIsInherited | common/profile/loader.go:49-163 | loading and merging give every unit key its inherited value |
| ProfileLoader.AddToUnit | common/profile/loader.go:130-140 | a known unit and its section in the file get the same missing keys |
| ProfileLoader.AdoptUnit | common/profile/loader.go:123-129 | a new unit is adopted and copied into a new section of the file |
| ProfileLoader.MergeUnits | common/profile/loader.go:120-141 | the units and the file of the final profile agree on the merged units |
| ProfileLoader.SetOption | common/profile/loader.go:110-116 | the option is set on the section "main", which is made if missing |
| ProfileLoader.Merge | common/profile/loader.go:89-163 | units and file hold the merge of all profiles' units, and the options the last value of each |
| ProfileLoader.Create | common/profile/factory.go:23-47 | the units and the options of a profile are the sections of its file |
| ProfileLoader.SpacesIgnored | common/profile/loader.go:51-52 | whatever spaces are around names, they load alike and load the same list |
| ProfileLoader.IncludesFollow | common/profile/loader.go:64-71 | a profile that includes names, with commas between them and spaces around them, is followed by what these names load |
| ProfileLoader.UnitsOfFile | common/profile/factory.go:34-45 | the units of a file are its sections besides the default one and "main", in their order |
| ProfileLoader.FilterKeeps | common/profile/loader.go:31-42 | exactly the names made of letters, digits, "_", "." and "-" remain, in their order |
| ProfileLoader.LoadProfile | common/profile/loader.go:49-76 | profiles are loaded in preorder, each followed by what it includes, whenever loading the names ends |
| ProfileLoader.LoadsIffNoCircle | common/profile/loader.go:49-76 | where finitely many names can be reached, loading ends exactly if the request reaches no circle of includes |
| ProfileLoader.DeeperLoadsSame | common/profile/loader.go:49-76 | what is loaded does not depend on the bound on the nesting |
| ProfileLoader.Load | common/profile/loader.go:193-215 | no valid name, no profile found, or a profile whose unit keys have their inherited values, in its units and its file alike |
| Texts.SplitJoined | common/tuning/optimizer.go:701-706 | splitting joined parts gives the parts back |
| Texts.JoinedSplit | common/tuning/optimizer.go:701-706 | joining the parts of a text gives the text back |
| Texts.TrimIs | common/profile/loader.go:52 | what remains between the characters cut is exactly a text that neither begins nor ends with one |
| Texts.SplitTrimmed | common/tuning/optimizer.go:701-706 | trimming the whole text before splitting makes no difference to the trimmed parts |
| ClusterSync.GroupsAreRead | common/tuning/optimizer.go:701-706 | the groups are read back from a text with commas between addresses, hyphens between groups and white space around groups |
| ClusterSync.CommasOnlyIsOneGroup | common/tuning/optimizer.go:701-706 | addresses with commas only are one group |
| ClusterSync.ConfiguredLayout | common/tuning/optimizer.go:696-714 | a blank configuration leaves the objects as they are; groups lay every project out over them |
| ClusterSync.ExceptsAreRead | common/tuning/optimizer.go:716-722 | the excepted addresses are read back from the list with commas between them |
| ClusterSync.LaidAsOne | common/tuning/optimizer.go:630-647 | with one address group, or objects in at most one requested project, the projects laid out one by one and merged are the layout of all originals together |
| ClusterSync.IndexFindsObject | common/tuning/optimizer.go:831-849 | for all requested projects together: with one address group, or no clusters given and objects in at most one project, the recomputed index selects the object laid out for the original and the group |
| ClusterSync.LayoutFitsIff | common/tuning/optimizer.go:831-849 | for all requested projects together: the scripts divide into one per original and group and every index selects its object, exactly if there is one group, or no object came with clusters and at most one requested project has objects |
| ClusterSync.QuotientIsCountIff | common/tuning/optimizer.go:831 | scripts divided by groups is the number of originals of all projects exactly if there is one group or no object came with clusters |
| ClusterSync.CopyInTheWay | common/tuning/optimizer.go:831-841 | without clusters given, where several projects have objects and there are several groups, a copy for the second group lies where an original is looked for |
| ClusterSync.GivenObjectMistaken | common/tuning/optimizer.go:831-849 | a failing case: with two groups an object that came with clusters is found where the copy of another is looked for |
| ClusterSync.TwoProjectsMistaken | common/tuning/optimizer.go:831-849 | another failing case: with two groups and two projects a copy of the first project's object is found where the second project's object is looked for |
| ClusterSync.SecondProjectNotSent | common/tuning/optimizer.go:831-855 | in that case a node of the first group only gets "no operation" for an object of the second project that is for it |
| ClusterSync.NodeGetsItsScripts | common/tuning/optimizer.go:831-855 | for all requested projects together: with one address group, or no clusters given and objects in at most one project, every remote node gets one entry per original: its group's script, or "no operation" where the original is not for it |
| ClusterSync.AllReachIff | common/tuning/optimizer.go:831-850 | every message finds an object at each of its indices exactly if the scripts that are divided up are no more than the objects |
| ClusterSync.InPlaceIff | common/project/project.go:307-352 | the scripts collected belong to the objects at the same indices exactly if no object without a script is before one that has one |
| ClusterSync.SkippedInPlaceIff | common/project/project.go:307-352 | with several groups, where an object is skipped together with its copies, that is so exactly if no object is skipped or all are |
| ClusterSync.BothRestartScriptsIff | common/tuning/optimizer.go:831-855 | of the two scripts of a restart a node gets both exactly if there is one group and the first two objects are for the node |
| ClusterSync.RestartPanicsIff | common/tuning/optimizer.go:831-850 | when dividing up the two scripts of a restart finds no object at an index |
| ClusterSync.ClustersForMeans | common/tuning/optimizer.go:756-760 | an object is for an address of its group exactly if it does not except it |
| ClusterSync.RemainingConcat | common/tuning/optimizer.go:724-737 | the addresses that are not excepted keep their order |
| ClusterSync.RemainingOne | common/tuning/optimizer.go:724-737 | an address remains exactly if it is not excepted |
| ClusterSync.YamlPrjObj.AddClusters | common/tuning/optimizer.go:756-760 | the addresses of the group that are not excepted, nil if there are none |
| ClusterSync.ObjectSet.AppendObject | common/tuning/optimizer.go:741-764 | one new object per later group, named by it, at the end |
| ClusterSync.ObjectSet.WriteObject | common/tuning/optimizer.go:716-738 | the copies are made before the original is renamed |
| ClusterSync.ObjectSet.CheckObjectDuplicate | common/tuning/optimizer.go:696-714 | the objects become the layout of the originals over the groups, or stay without a configured address; the new ones come behind those there |
| ClusterSync.GroupIsReadBack | common/project/project.go:354-365 | the group number that running a project's scripts reads from an object's name is the group the object was made for |
| ClusterSync.GroupNumberIff | common/project/project.go:354-365 | a name has a group exactly if it ends in a hyphen and digits |
| ClusterSync.ServerRunsFirstGroup | common/project/project.go:354-381 | of the objects made from an original the server runs exactly that of the first group, if the server is in that group and not excepted |
| ClusterSync.ServerRunsGiven | common/project/project.go:354-381 | of objects without a configured address the server runs all but those whose names end in a hyphen and a number other than zero |
| ClusterSync.YamlPrjSvr.MergeProject | common/project/project.go:430-432 | the objects of one project go behind those of the other |
| ClusterSync.LoadProjects | common/tuning/optimizer.go:612-624 | every file is parsed to a project of its own, sharing no object with another, or the first that does not parse ends it |
| ClusterSync.NamesAreRead | common/tuning/optimizer.go:602-608 | the names requested are those between the commas, without white space around them |
| ClusterSync.ChosenKeeps | common/tuning/optimizer.go:630-633 | exactly the requested projects are chosen, in the order of the files |
| ClusterSync.FirstChosenIsFirst | common/tuning/optimizer.go:643-646 | the first of them is the first in the order of the files |
| ClusterSync.Optimizer.TakeProject | common/tuning/optimizer.go:636-646 | a requested project is arranged by itself; the first becomes the project to tune, a later one is merged |
| ClusterSync.Optimizer.CheckServerPrj | common/tuning/optimizer.go:601-653 | the objects to tune are those of the requested projects in the order of the files, each project laid out by itself; the project is the first requested one; an error exactly if a file does not parse, or none is requested and there was no project |
| ClusterSync.NewScripts | common/tuning/optimizer.go:837-855 | the message to one address |
| ClusterSync.EveryNodeIsSent | common/tuning/optimizer.go:832-836 | every address of every group is sent one message, in the order of the configuration, except the server's own and empty ones |
| ClusterSync.SentIsMessage | common/tuning/optimizer.go:832-858 | what an address is sent is the message for its group |
| ClusterSync.SyncConfigToOthers | common/tuning/optimizer.go:812-863 | the messages go out group by group until the first that cannot be sent or finds no object at an index |
| FeatureFilter.Optimizer.constructor | modules/server/profile/profile.go:770-774 | a new selection: the objects not skipped are open and nothing is selected |
| FeatureFilter.Optimizer.FilterParams | common/tuning/optimizer.go:450-503 | for any ranking the head is selected and skipped and the tail remains; the slice is exceeded exactly if fewer are ranked than are to be selected; no parameter is selected twice exactly if the new ones are new and differ |
| FeatureFilter.Optimizer.SelectOnce | common/tuning/optimizer.go:137-188 | a cycle tunes exactly the open objects and leaves open those it does not select |
| FeatureFilter.Optimizer.SelectParameters | modules/server/profile/profile.go:674-722 | in a run of cycles no parameter is selected twice, every ranking is its selected and its remaining part, another cycle follows exactly while the guard holds, and the run fails exactly as SliceFails says |
| FeatureFilter.PartsOfText | common/tuning/optimizer.go:424-425 | the number of parts of joined parameter names, which is one for none |
| FeatureFilter.SliceFailsIff | common/tuning/optimizer.go:424-429 | a selection exceeds a ranking exactly if the open objects do not divide into selections, the cycles reach the remainder, the guard lets the cycle over it start, and no cycle before hardly fluctuated |
| FeatureFilter.SelectionSafeIff | common/tuning/optimizer.go:424-429 | for the object's own count: no cycle's selection can exceed its ranking exactly if the open objects divide into selections, the cycles do not reach the remainder, or the first selection fits and remainder and objects skipped at first are together fewer than the count |
| FeatureFilter.TuningSafeIff | common/tuning/optimizer.go:477-486 | no filtering of a whole tuning, the one after the final tuning included, can exceed its ranking exactly if the open objects divide into selections, or the first selection fits and the cycles do not reach the remainder or are kept from it by the guard |
| FeatureFilter.TuningRepeatsIff | common/tuning/optimizer.go:387-391 | the filtering after the final tuning selects parameters again exactly if a first cycle has something to select and no cycle that runs hardly fluctuates |
| FeatureFilter.Optimizer.Tune | common/tuning/optimizer.go:83-134 | a whole tuning of cycles and final tuning, whose filtering sees the statistics of the last cycle or none: it fails, and selects parameters twice, exactly on those sizes |
| FeatureFilter.SecondCycleFails | common/tuning/optimizer.go:424-429 | a reachable state in which the guard passes and the next selection exceeds its ranking |
| FeatureFilter.FinalFilteringFails | common/tuning/optimizer.go:477-486 | a tuning without cycles whose final filtering exceeds its ranking |
| FeatureFilter.SelectedTwice | common/tuning/optimizer.go:387-391 | a tuning that selects one parameter twice |
| FeatureFilter.NoRepetition | common/tuning/optimizer.go:485-492 | without repetition in all that is selected the cycles select disjoint sets |
| FeatureFilter.SelectedEnough | common/tuning/optimizer.go:477-485 | what a run selects, if anything, is not too short for the filtering after the final tuning |
| FeatureFilter.Optimizer.InitTuned | common/tuning/optimizer.go:108-118 | exactly the selected parameters are tuned, if any was selected |
| FeatureFilter.Optimizer.OpenSize | common/tuning/optimizer.go:169-188 | as many objects are open as are neither skipped at first nor selected |
| FeatureFilter.Optimizer.FinishTuning | common/tuning/optimizer.go:387-391 | the final tuning filters again: parameters are then selected twice unless none was selected before, the results hardly fluctuated, nothing is ranked, or none is to be selected |
| FeatureFilter.DistinctConcat | common/tuning/optimizer.go:485-492 | two lists of parameters join without repetition exactly if neither repeats and they share none |
| Score.RateDecreases | common/project/project.go:217-228 | the rate falls strictly as the metric grows, for either sign |
| Score.RateSwaps | common/project/project.go:217-228 | base and current value exchanged give the opposite rate |
| Score.YamlPrjCli.CalculateBenchMark | common/project/project.go:204-215 | the negated weighted sum of the rates, or a single metric itself |
| Score.ScoreIsMonotone | common/project/project.go:204-228 | metrics at least as good give a score at least as good, and a better one if a weighted metric is better |
| Score.RateIsRelative | common/project/project.go:217-228 | a metric worse than its base by some percent of it loses as many percent |
| Score.UniformScore | common/project/project.go:204-228 | if every metric improved by the same percentage and the weights add up to a hundred, that is the score, negated |
| Score.ScoreSwaps | common/project/project.go:204-228 | scored against each other, one result gains what the other loses |

## Left out

- TopologyInit.TopoTree.InitTopo: starts from the zero tree, as the program's one call does; that the masks of the levels are nested classes of the online CPUs is a hypothesis on the system's files, which a file that leaves out its own CPU breaks. A CPU without a NUMA directory, for which the program dereferences a nil mask, is not modelled.
- Topology.TopoNode.AddCounter: load, idle and irq have the same code three times over in the source; here one counter parameter stands for them. A node with an empty mask, which would divide by zero, is excluded.
- Topology.TopoNode.SetCounter: the same exclusion of empty masks applies.
- NumaAware.NumaAwarePlugin.PickUnderLowLoad: the device's NUMA node and the load percentages are inputs; the early returns for a missing device, NUMA node or interrupt list leave the tasks alone and are not modelled.
- ScheduleManager.KernelMask: the system call itself, and its failure, are not modelled; CPU numbers from 1024 on would index past the mask and are excluded.
- ScheduleManager.Binder.BindTaskToTopoNode: nodes whose mask holds CPU 639 are excluded, as setting their affinity panics; a system call that fails is not modelled.
- AbTest.ABtestTuningManager.constructor: every knob must have an item, as the source reads the first one.
- AbTest.ABtestTuningManager.GetBestParams: without a knob there is no result, and the source's argmin raises an error.
- GridSearch.GridSearchTuningManager.GetBestParams: without a result the source's argmin raises an error; items and their types are texts here, and their conversion to numbers is left out.
- KnobTraverse.KnobTraverseManager.GetTraverseRank: the final text of the ranking is left out; the list of names and scores stands for it. Knob names are taken to be distinct, as they are keys of dictionaries throughout.
- LongMultiplication.DigitsAreMultiplied: how Python writes a multiplier of a floating point range is left out; texts with an exponent or a sign are value errors in `GetMultipleRes` and not in this lemma.
- ProfileLoader.LoadProfile: requires that loading the names ends, as the method could not be written for a circle that the request reaches; the list of processed names, which nothing reads, and the name, path and inclusion mark of a profile are left out.
- ProfileLoader.Merge: section names with dots, which the ini library lets inherit keys from a section named by their beginning, are not modelled; setting a key that exists replaces its value, as the library does.
- ProfileLoader.Load: inputs taken from the server's own configuration and the removal of spaces from script paths are left out.
- ClusterSync.GroupIsReadBack: a number at the end of a name that is too large for the program's integers, which is an error there, is left out, as is the rest of running a project's scripts.
- Texts.TrimIs: of the white space only that in ASCII is cut.
- ClusterSync.SyncConfigToOthers: the content of a message beyond its scripts, and the answers of the node, are left out.
- ClusterSync.Optimizer.CheckServerPrj: the replacement of disk and network names in objects is left out; the objects it appends are dropped again, as the objects laid out are those from before it. The relations and other fields of objects that laying out and sending do not look at, and a tuning directory that cannot be walked, are left out.
- FeatureFilter.Optimizer.FilterParams: the ranking arrives as a sorted list of names and scores; its text form, and the error for a score that is no number, are left out.
- FeatureFilter.Optimizer.SelectParameters: rankings name objects tuned in the cycle, each at most once; for the exact condition of failure they name all of them. The number of parameters in an answer is that of the tuned objects, as no value contains a comma, and object names are distinct.
- Score.ScoreIsMonotone: metrics are not zero and have the sign of their base; a zero metric divides by zero in the source.
- Protocol.CompletesIffGood: the foreign search libraries are an engine that suggests a given number of parameter sets; a value put by the client is never empty except on a restart.
- Concurrency of the schedule manager: starting, submitting and stopping under concurrent callers is left out, because checking and setting the running mark are separate critical sections and no guarantee over a whole run follows from the code.
- Embedded masks are values: a node's own mask is a field of ten words that its methods replace, and `Cpumask` objects stand for masks passed by pointer.
- The Flask resources, gRPC streams, databases, log files and command line clients are plumbing around the modelled logic.
- Least-load selection, string validators and the other small helpers would only add easy members.
