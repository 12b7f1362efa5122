# Workload Collocation Agent, modelled and verified

A Dafny model of the decision-making parts of the agent and its scheduler, with proofs of what they keep, restore
and conserve. To verify: `dafny verify dfyconfig.toml`.

- **Cluster scheduling.** `ResourceVectors` is the resource arithmetic with memory bandwidth as one resource in two
  views; `Accounting` the simulator's task-by-task subtraction; `Simulator` and `SimulatorSafety` the simulated step on
  values and its invariant over runs; `ClusterSimulator` the same step on objects updated in place; `SimulatorRounds`
  says what a step does to each task; `Fit`, `FitProgress`, `Packing`, `Score`, `PmemChoice`, `HierBar` and `BestClass` are
  the algorithms.
- **The allocation loop.** `Allocations` is the recursive merge of a request into the current tree, over the leaves of
  `AllocationValues`; `AllocationRuns` repeats it; `AllocationValidation`, `AllocationWrites`, `AllocationRunner`,
  `AllocationStrays`, `AllocationEscapes` and `AllocationFailures` add validation, the groups counted, the schemata rows written, the round as a whole, the rows that go to a wrong group and the exceptions
  that escape. `ListFormat`, `LeadingZeros`, `Schemata`, `MemoryBandwidth`, `Cbm` and `Rdt` are the texts of the control
  files; `Cgroups` the quota and shares files; `Numa` and `NumaWrites` the pinning of tasks to nodes.
- **State per node.** `Containers` is the container lifecycle, `Wss` and `WssStability` the working-set state machine,
  `Metrics` the merge of hierarchical counters.
- **Shared.** `Dicts` (insertion-ordered dictionaries, exceptions), `Ordering` (stable sorting, first maximum),
  `Text` (splitting, stripping, numbers), `Numbers` (conversions).

Numbers are exact reals where the program uses floating point. Texts are sequences of characters. Dictionaries keep
their insertion order where it decides something. Where the program loops or updates objects, the model is a method or
a class proved against a specification function, and the results are lemmas about that function.

## What the proofs found

Places where the program does less than its documentation suggests; each is stated exactly.

- `check_cbm_mask` compares a signed number with the full mask, so a negative mask passes as soon as its magnitude is
  a block (`Cbm.NegativeMaskPasses`); non-negative masks behave as documented.
- The greedy loop of the rescheduler charges a task on every node where it fits. What it reports can be placed
  (`Score.ReportedTasksCanBePlaced`) and what it leaves out fits nowhere next to the charged usage, but it is maximal
  against what is really placed only with at most one node (`Packing.AlwaysMaximalIff`, `Score.LeftOutMayFitThePacking`).
- The two accountings of the scheduler and the simulator differ when the nodes have a write view of the memory
  bandwidth but no read view (`Accounting.LoneWriteViewAgreesIffUnused`).
- The groups of the request and those of the current allocations are counted apart, so an accepted round may need more
  CLOSIDs than there are (`AllocationRunner.TargetWithinLimitIff`, `AllocationRunner.LimitMayBeExceeded`).
- A quota raised to the minimum settles only if it was raised by at most the tolerance (`Cgroups.QuotaCloses`); otherwise
  it is written again in every round.
- Schemata values are compared as texts. Against a plainly written value an equal number is reported as a change
  exactly when it has anything but lower-case digits behind its leading blanks and zeros: an upper-case letter, a sign,
  "0x", an underscore, a trailing space (`Rdt.SameTextIsSameNumber`, `Rdt.NeedlessChangeIff`,
  `Rdt.UpperCaseDiffers`, `Rdt.PrefixDiffers`); between plain numerals it is the case of letters alone
  (`Rdt.SameNumeralsIff`).
- The target of an RDT merge in the same group holds the new row in place of the current one, not the two merged: with
  a row that names only some domains it is not what the group will hold (`AllocationValues.TargetAgreesIff`,
  `AllocationValues.PartialTargetExample`); the values written are right all the same
  (`AllocationValues.RdtChangesetIsRight`).
- A group is marked as written by the first value that names it, with or without rows, and by each of the two RDTGroups
  objects of a round apart: rows may never be written, and a group may be written twice
  (`AllocationWrites.AllReachIff`, `AllocationWrites.RowsMayBeLost`, `AllocationWrites.GroupMayBeWrittenTwice`).
- A value asked of a task whose current allocations are missing (wca/runners/allocation.py:397-408) is performed without
  being moved (wca/allocations.py:72-75): its rows go to the group its container is in (wca/resctrl_allocations.py:292),
  not to the group it names, while the round is accepted and reports them. Nothing else sends rows to a wrong group, since
  current rows are read under the name of their own group (wca/resctrl.py:255-274)
  (`AllocationStrays.RoundStraysIff`, `AllocationStrays.RowGoesAstray`).
- Merging node shapes loses the nodes of classes without a bandwidth ratio, and of one side when the two averaged shapes
  are the same; offering a lost node fails an assertion (`HierBar.RealMergeKeepsPartitionIff`, `HierBar.NeverFailsIff`,
  `HierBar.CollisionExample`).
- A cpu list that is not empty but lists nothing raises an IndexError rather than being refused
  (`AllocationValidation.RefusedProperlyIff`, `AllocationValidation.ImproperlyRefused`). Parts with more than one dash list
  nothing instead of raising (`ListFormat.DecodeRaisesIff`, `ListFormat.ListsNothingIff`, `ListFormat.TwoDashesListNothing`).
- A malformed row in a request is a ValueError that escapes the round, as is an assertion when the request names a domain
  that the group lacks (`AllocationFailures.RoundRaisesIff`, `AllocationEscapes.BuildingIff`,
  `AllocationFailures.MalformedRowEscapes`, `AllocationFailures.UnknownDomainEscapes`).

## Model

| member | source | states |
|---|---|---|
| `ResourceVectors.SubtractResources` | wca/scheduler/algorithms/base.py:191-209 | The loop and the coupled bandwidth step give, in every dimension, what stays free; reads and writes consume each other at the capacity's ratio |
| `ResourceVectors.DivideResources` | wca/scheduler/algorithms/base.py:236-251 | The division is dimension by dimension, of the flattened operands when there is a ratio |
| `ResourceVectors.EnoughResourcesOnNode` | wca/scheduler/algorithms/base.py:368-378 | Enough exactly when no dimension goes negative; the broken dimensions are the negative ones with their deficits |
| `ResourceVectors.UsedResourcesOnNode` | wca/scheduler/algorithms/base.py:164-173 | The nested loops add, per dimension, each application's need times its count |
| `ResourceVectors.FreeBandwidthIsOneResource` | wca/scheduler/algorithms/base.py:191-218 | Free reads are always the ratio times free writes |
| `ResourceVectors.BandwidthFitsIffFlatFractionAtMostHalf` | wca/scheduler/algorithms/base.py:221-251 | Both bandwidth views are free together, exactly when the flattened usage fraction is at most one half |
| `ResourceVectors.FitsIsMonotone` | wca/scheduler/algorithms/base.py:368-378 | A node that can hold a usage can hold every smaller one |
| `Accounting.Resources.SubtractAepAware` | wca/scheduler/cluster_simulator.py:60-79 | Updating the resources in place takes exactly one task's charge off every dimension |
| `Accounting.AccountingsAgree` | wca/scheduler/cluster_simulator.py:60-79 | Subtracting the running tasks one by one, in any order, leaves what the scheduler computes from per-application counts |
| `Accounting.LoneWriteViewAgreesIffUnused` | wca/scheduler/algorithms/base.py:191-218 | With a write view alone the two accountings agree on a request exactly when it writes nothing |
| `ClusterSimulator.Task.Update` | wca/scheduler/cluster_simulator.py:140-151 | A task ages by one and leaves its node when its duration has passed |
| `ClusterSimulator.CalculateUnassigned` | wca/scheduler/cluster_simulator.py:177-183 | The loop over the tasks leaves the node's capacity minus the requests assigned to it |
| `ClusterSimulator.ValidateAssignment` | wca/scheduler/cluster_simulator.py:185-190 | True exactly when every dimension, with the new task subtracted, is above the tolerance |
| `ClusterSimulator.ClusterSimulator.PerformAssignment` | wca/scheduler/cluster_simulator.py:246-255 | A valid assignment is made; an invalid one is counted as rough and made only where that is allowed |
| `ClusterSimulator.ClusterSimulator.AssignTask` | wca/scheduler/cluster_simulator.py:257-325 | One task goes where the scheduler sends it, if anywhere, or an assertion stops the step |
| `ClusterSimulator.ClusterSimulator.UnassignTasks` | wca/scheduler/cluster_simulator.py:327-334 | The tasks a rescheduling names lose their nodes, and nothing else changes |
| `ClusterSimulator.ClusterSimulator.UpdateTasksLife` | wca/scheduler/cluster_simulator.py:242-244 | All tasks age together |
| `ClusterSimulator.ClusterSimulator.AddTasks` | wca/scheduler/cluster_simulator.py:290-305 | New tasks join the cluster, those bound to a node by name directly |
| `ClusterSimulator.ClusterSimulator.Iterate` | wca/scheduler/cluster_simulator.py:290-339 | One step on the objects refines the step on values: new tasks, retries, assignments, rescheduling, ageing |
| `SimulatorSafety.IteratedStaysSafe` | wca/scheduler/cluster_simulator.py:290-339 | Every step under any algorithm keeps each node without rough assignments within its capacity up to one tolerance |
| `SimulatorSafety.RunStaysSafe` | wca/scheduler/cluster_simulator.py:246-339 | The same over any sequence of steps; without permission no rough assignment is ever counted |
| `SimulatorSafety.CapacityIsNeverExceeded` | wca/scheduler/cluster_simulator.py:46-339 | From an empty cluster no run of any algorithms takes a free amount of any node to -0.0001 or below: the tolerance never adds up |
| `SimulatorRounds.ChosenIff` | wca/scheduler/cluster_simulator.py:257-288 | No node without an answer; otherwise the node that alone has the name of the first answer of highest score, and a failed assertion without such a node |
| `SimulatorRounds.BoundIff` | wca/scheduler/cluster_simulator.py:246-255 | A task is bound to the node chosen and counted exactly when every dimension stays above the tolerance or rough assignments are allowed; the node's counter goes up exactly when one does not; otherwise nothing changes |
| `SimulatorRounds.UnboundIff` | wca/scheduler/cluster_simulator.py:257-288 | Without an answer nothing changes, and an unknown node stops the step |
| `SimulatorRounds.EachInTurn` | wca/scheduler/cluster_simulator.py:307-324 | Every task to schedule is assigned in the state that the one before left, and the counts add up |
| `SimulatorRounds.ArrivesIff` | wca/scheduler/cluster_simulator.py:290-305 | Tasks arrive exactly when every node name given is that of one node: those are bound there, the others are to be scheduled |
| `SimulatorRounds.LeavesIff` | wca/scheduler/cluster_simulator.py:327-334 | A rescheduling succeeds exactly when every name is that of one task, and then just these tasks lose their nodes |
| `SimulatorRounds.BoundTaskAfterRound` | wca/scheduler/cluster_simulator.py:290-339 | A task on a node gets older and stays there unless its duration has passed, or a round with nothing to schedule names it |
| `SimulatorRounds.StaysForItsDuration` | wca/scheduler/cluster_simulator.py:140-151 | Over any run under algorithms that never reschedule, a task stays on its node for its duration and leaves in the round after |
| `Fit.ComputeAppFits` | wca/scheduler/algorithms/fit.py:30-61 | The chain of calls accepts exactly when the application fits next to what the node runs; nothing is missing then |
| `Fit.PassingIsValid` | wca/scheduler/algorithms/fit.py:30-92 | What passes the Fit filter passes the simulator's validation, cpus scaled down by a factor of at most one |
| `Fit.ChosenPasses` | wca/scheduler/cluster_simulator.py:257-288 | The node the simulator takes from Fit's answers has passed Fit's filter |
| `Fit.RunUnderFitNeverRough` | wca/scheduler/algorithms/fit.py:64-92 | With Fit on the simulator's own data no run ever counts a rough assignment, even where they are allowed |
| `FitProgress.PassesIff` | wca/scheduler/algorithms/fit.py:30-92 | A node passes the filter exactly when every dimension has room for one copy more, reads and writes together, the cpus of a PMEM node counted by the factor |
| `FitProgress.ChosenIffSomePasses` | wca/scheduler/cluster_simulator.py:257-288 | Under Fit a node is chosen exactly when some node passes, and never an unknown one |
| `FitProgress.ChosenIsFirstByName` | wca/scheduler/algorithms/base.py:105-121 | All nodes score alike, so the passing node that comes first by name is chosen |
| `FitProgress.BoundUnderFit` | wca/scheduler/cluster_simulator.py:246-288 | A task is bound to a node that passes exactly when there is one, without a rough assignment |
| `FitProgress.LoneArrival` | wca/scheduler/cluster_simulator.py:290-339 | A lone task that arrives is on a node at the end of the round exactly when some node passes for it and its duration is not over at once |
| `FitProgress.LoneRetry` | wca/scheduler/cluster_simulator.py:307-339 | Where unassigned tasks are retried, a lone one that waits gets a node as soon as one passes |
| `FitProgress.CoreNameIsPrefix` | wca/scheduler/cluster_simulator.py:135-138 | The application of a task is its name up to the first ___ |
| `FitProgress.LastTaskDecides` | tests/scheduler/simulator/data_provider.py:127-135 | What an application requests is what its last task does |
| `Packing.PackingExists` | wca/scheduler/algorithms/score.py:211-240 | Each node that receives a task, tasks going to the first node where they fit, can hold what it had and everything placed on it |
| `Packing.LeftOutFitsNowhere` | wca/scheduler/algorithms/score.py:211-240 | A task left out fits on no node, not even with what was charged at the end |
| `Packing.AllReportedIffPlaced` | wca/scheduler/algorithms/score.py:211-240 | The names reported by the loop are exactly those of placed tasks |
| `Packing.ReportedPerNode` | wca/scheduler/algorithms/score.py:221-236 | A task is reported once for every node where it fits |
| `Packing.MaximalWhereNothingIsChargedInVain` | wca/scheduler/algorithms/score.py:221-236 | On a node where nothing was charged that was placed elsewhere, a task left out does not fit next to the packing |
| `Packing.MaximalOnASingleNode` | wca/scheduler/algorithms/score.py:221-236 | With one node the loop is maximal |
| `Packing.SecondTaskIsLeftOut` | wca/scheduler/algorithms/score.py:221-236 | On any two or more empty nodes a second task can be left out although it fits next to the packing |
| `Packing.AlwaysMaximalIff` | wca/scheduler/algorithms/score.py:221-236 | On given nodes the loop is maximal for every problem if and only if there is at most one node |
| `Score.PmemAppsAreProfiled` | wca/scheduler/algorithms/score.py:37-49 | An application that belongs on PMEM has a profile, with or without a score target |
| `PmemChoice.ForPmemIff` | wca/scheduler/algorithms/score.py:37-49 | With more than two profiles an application is for PMEM exactly when it has a profile of at most the target or, without a target, the lowest one, listed first among equals; with fewer never |
| `PmemChoice.LeavesPmemIff` | wca/scheduler/algorithms/score.py:121-152 | The tasks that leave PMEM nodes are those there of an application that is not for PMEM in these terms |
| `PmemChoice.ConsideredIff` | wca/scheduler/algorithms/score.py:121-152 | The tasks considered are those on DRAM nodes of an application that is |
| `PmemChoice.ItemsAreInOrder` | wca/scheduler/algorithms/score.py:194-204 | Considered tasks are packed by profile, equal ones as they are listed, and within one application by name |
| `PmemChoice.WithoutTarget` | wca/scheduler/algorithms/score.py:37-49 | Profiles 1, 2 and 3 and no target: the task of the highest leaves PMEM, the one of the lowest is considered, the others stay |
| `Score.FindMoves` | wca/scheduler/algorithms/score.py:121-152 | The nested loops collect the applications wrongly on PMEM and those wrongly on DRAM |
| `Score.AllMovesHas` | wca/scheduler/algorithms/score.py:121-152 | The collected moves are exactly the wrongly placed applications, each with all its tasks |
| `Score.ItemsAreConsidered` | wca/scheduler/algorithms/score.py:186-198 | What is packed, in profile and name order, is exactly what runs on DRAM although it belongs on PMEM |
| `Score.UsedOnPmemNodes` | wca/scheduler/algorithms/base.py:349-365 | The usage of every PMEM node is counted from its applications |
| `Score.TryNode` | wca/scheduler/algorithms/score.py:223-231 | Enough resources on a node is what the packing problem calls fitting |
| `Score.PackTask` | wca/scheduler/algorithms/score.py:216-236 | The innermost loop charges and reports a task once for every PMEM node where it fits |
| `Score.PackAll` | wca/scheduler/algorithms/score.py:211-240 | The loop over tasks accumulates those charges and reports |
| `Score.Reschedule` | wca/scheduler/algorithms/score.py:121-241 | The result is everything misplaced on PMEM and then the packed tasks; nothing at all when no task is considered |
| `Score.ReportedTasksCanBePlaced` | wca/scheduler/algorithms/score.py:159-241 | After the misplaced tasks left, the considered tasks reported can all be placed together, coupled bandwidth included |
| `Score.UnreportedTasksFitNowhere` | wca/scheduler/algorithms/score.py:159-241 | A considered task not reported fits on no PMEM node even at the end of the loop |
| `PmemChoice.LeftOutExceeds` | wca/scheduler/algorithms/score.py:211-240 | Next to what was charged until the end, a task left out exceeds the capacities of every PMEM node |
| `Score.MaximalOnOnePmemNode` | wca/scheduler/algorithms/score.py:159-241 | With at most one PMEM node a task left out does not fit next to the packing |
| `Score.LeftOutMayFitThePacking` | wca/scheduler/algorithms/score.py:159-241 | A cluster of two PMEM nodes and a DRAM node where the second task is left out although an empty node could take it |
| `HierBar.ReverseNodeShapes` | wca/scheduler/algorithms/hierbar.py:174-180 | The loop lists every node under its shape, shapes in the order met |
| `HierBar.ShapesPartitionNodes` | wca/scheduler/algorithms/hierbar.py:174-187 | Every node is listed in exactly one class, that of its own shape |
| `HierBar.CalcAverageResources` | wca/scheduler/algorithms/hierbar.py:35-44 | The loop and division give the average capacities of the nodes, nothing for no nodes |
| `HierBar.CreateNewShape` | wca/scheduler/algorithms/hierbar.py:66-81 | The nodes of all the shapes, and the shape of their average |
| `HierBar.MergeShapes` | wca/scheduler/algorithms/hierbar.py:84-120 | The shapes above and below the threshold become one class each; a class of the same shape replaces the earlier one |
| `HierBar.MergeKeepsPartitionIff` | wca/scheduler/algorithms/hierbar.py:84-120 | Merging keeps every node in exactly one class if and only if every class has a bandwidth ratio and the two averaged shapes differ |
| `HierBar.RealMergeKeepsPartitionIff` | wca/scheduler/algorithms/hierbar.py:84-120 | For the classes of given capacities the partition is kept if and only if bandwidth is among the dimensions and the averaged shapes differ |
| `HierBar.CollisionExample` | wca/scheduler/algorithms/hierbar.py:84-120 | Three nodes with reads and writes (2,1), (3,2), (1,1) and threshold 1.5: the first is in no class, and offered alone nothing matches |
| `HierBar.CalculateClassVariances` | wca/scheduler/algorithms/hierbar.py:131-171 | Every class is scored by the variance of the requested fractions of its average node, flattened bandwidth included |
| `HierBar.PerfectShape` | wca/scheduler/algorithms/hierbar.py:145-153 | The score is never negative, and zero exactly when the same fraction of every resource is asked for |
| `BestClass.VarianceBySums` | wca/scheduler/algorithms/hierbar.py:145-153 | n (n - 1) times the score of n shares is n times the sum of their squares less the square of their sum |
| `BestClass.VarianceIgnoresOrder` | wca/scheduler/algorithms/hierbar.py:145-153 | The order of the shares does not matter |
| `BestClass.AverageIsMean` | wca/scheduler/algorithms/hierbar.py:35-44 | The average node has the mean of every dimension |
| `BestClass.ClassVarianceBySums` | wca/scheduler/algorithms/hierbar.py:131-171 | The same for a class, from the shares of its average node in any order of the dimensions, reads and writes as one |
| `HierBar.ChooseNodes` | wca/scheduler/algorithms/hierbar.py:243-279 | From scored classes: succeeds exactly when every offered node is in a class, and then accepts all offered nodes of a class of least variance among those with an offered node |
| `HierBar.AppFitNodes` | wca/scheduler/algorithms/hierbar.py:210-279 | The same from capacities, threshold and request, with the variance of the requested fractions |
| `BestClass.AcceptedSpreadsLeast` | wca/scheduler/algorithms/hierbar.py:210-279 | The nodes accepted are the offered ones of a class for which n times the sum of squares less the square of the sum is least |
| `BestClass.FirstIsAccepted` | wca/scheduler/algorithms/hierbar.py:210-279 | Two nodes with shares .1, .4, .4 and .3, .1, .5: the first is accepted |
| `HierBar.Filter` | wca/scheduler/algorithms/base.py:69-103 | The two passes split the given nodes exactly into accepted and failed ones |
| `HierBar.KnownNodesAreCovered` | wca/scheduler/algorithms/hierbar.py:219-262 | Nodes with known capacities are all in a class, so the last class has to match |
| `HierBar.SafelyMergedAreCovered` | wca/scheduler/algorithms/hierbar.py:222-262 | The same after a merge that keeps the partition |
| `HierBar.NeverFailsIff` | wca/scheduler/algorithms/hierbar.py:210-279 | The choice succeeds for all known nodes offered if and only if there is no threshold, at most one class, or bandwidth and no collision |
| `AllocationValues.CalculateLeafChangeset` | wca/allocations.py:176-194 | A number, list or RDT value compared with the current one gives a target and, if it differs, a changeset, or raises |
| `AllocationValues.CalculateRdtChangeset` | wca/resctrl_allocations.py:159-235 | A value for another group moves there; in the same group the rows are overridden and only changed rows are written |
| `AllocationValues.PlainChangesIff` | wca/allocations.py:176-194 | A number changes exactly when it is further from the current one than the sensitivity and than a billionth of either; a list exactly when it denotes another set |
| `AllocationValues.PlainChange` | wca/cgroups_allocations.py:95-107 | For numbers and lists the changeset is the target, or nothing when the target is the current value |
| `AllocationValues.LeafSettles` | wca/resctrl_allocations.py:159-235 | Asking any kind of leaf again once its target is reached gives no changeset |
| `AllocationValues.MergedLeafIsValid` | wca/resctrl_allocations.py:237-260 | Merging two valid values gives a valid one in the group of one of them, counted by the same object |
| `AllocationValues.RdtChangesetIsRight` | wca/resctrl_allocations.py:196-235 | One value in its group, cache and bandwidth, any texts that int reads: once its changeset was written every domain the new row names has the number asked for and the others are as they were |
| `AllocationValues.ValidRowsRead` | wca/resctrl_allocations.py:237-260 | The rows of a valid value hold nothing but texts that int reads, so what is said of such texts holds for every valid request |
| `AllocationValues.TargetAgreesIff` | wca/resctrl_allocations.py:200-207 | The target row agrees with what the group holds afterwards, domains and numbers, if and only if nothing was asked of it or the new row names all domains of the group; cache and bandwidth |
| `AllocationValues.PartialTargetExample` | wca/resctrl_allocations.py:200-207 | A group has L3:0=f;1=f and L3:0=3 is asked for: the target row is not what the group holds |
| `Allocations.CalculateChangeset` | wca/allocations.py:61-95 | The recursive loop over the request refines the recursive merge, errors included |
| `Allocations.MergedAtKey` | wca/allocations.py:61-95 | A key of the request is merged or added, any other key is kept; the changeset has only keys that change |
| `Allocations.MergedAtPath` | wca/allocations.py:61-95 | At every path of any depth the target and the changeset hold what merging the two leaves alone gives |
| `Allocations.OverlayIsTarget` | wca/allocations.py:61-95 | For numbers and lists the changeset laid over the current tree gives the target, order of keys included |
| `Allocations.NoChangesetIffReached` | wca/allocations.py:61-95 | There is no changeset if and only if the target is the current tree |
| `Allocations.RequestSettles` | wca/allocations.py:61-95 | For every kind of leaf, diffing the same request against the target gives no changeset |
| `AllocationRuns.StaysCloseToLatest` | wca/allocations.py:151-194 | Over any sequence of requests a number stays within tolerance of the latest request naming it |
| `AllocationRuns.NothingIsInvented` | wca/allocations.py:151-194 | Every number or list is the initial one or was asked for by an earlier request |
| `AllocationValidation.RdtGroups.Validate` | wca/resctrl_allocations.py:49-54 | A group is counted once, and refused when the groups counted are more than the limit |
| `AllocationValidation.RdtGroups.ShouldPerformSchemataWrite` | wca/resctrl_allocations.py:40-47 | True the first time a group is named |
| `AllocationValidation.ValidateCores` | wca/cgroups_allocations.py:109-122 | A list must decode and stay in range; a text that is not empty but lists nothing raises an IndexError |
| `AllocationValidation.RefusedProperlyIff` | wca/cgroups_allocations.py:109-122 | A list raises an IndexError if and only if it is not empty and is blank or each part has more than one dash or is a range that ends before it starts |
| `AllocationValidation.ImproperlyRefused` | wca/cgroups_allocations.py:109-122 | A blank, 1-2-3 and 3-1 raise it |
| `AllocationValidation.ValidateLeaf` | wca/resctrl_allocations.py:237-260 | The verdict on a leaf, and the groups counted afterwards |
| `AllocationValidation.Validate` | wca/allocations.py:107-109 | Every leaf in order until one raises |
| `AllocationValidation.ValidatedHolds` | wca/allocations.py:107-109 | A validation that succeeds says that every leaf is valid and its group counted within the limit |
| `AllocationValidation.ValidatesAgain` | wca/resctrl_allocations.py:49-54 | Valid leaves in counted groups always validate again and count nothing new |
| `AllocationValidation.MergedHolds` | wca/runners/allocation.py:339-347 | Merging a valid request into valid current allocations gives valid allocations in counted groups |
| `AllocationRunner.Create` | wca/runners/allocation.py:86-147 | Unknown tasks and kinds are refused, every task is validated as it is built |
| `AllocationRunner.AllocationRunner.IterateBody` | wca/runners/allocation.py:302-367 | A round does exactly what the round specification says: counters, performed changesets, schemata rows written, target, exceptions that escape |
| `AllocationWrites.PerformValue` | wca/resctrl_allocations.py:262-292 | A value writes its rows unless its RDTGroups object has seen its group, and marks the group even when it has no rows |
| `AllocationWrites.PerformAllocations` | wca/allocations.py:103-105 | Every leaf of a changeset in order, against the two RDTGroups objects of the round |
| `AllocationStrays.LeafIsPerformed` | wca/allocations.py:103-105 | Every value at the end of a path of the changeset is performed |
| `AllocationStrays.LeavesInOrder` | wca/allocations.py:103-105 | What is under an earlier key is performed before what is under a later one |
| `AllocationWrites.WrittenIff` | wca/resctrl_allocations.py:40-47 | The rows written are exactly those of the first value of every group for either object, where it has rows |
| `AllocationWrites.WrittenOncePerObject` | wca/resctrl_allocations.py:40-47 | No group is written twice by the same object, hence at most twice in a round |
| `AllocationWrites.AllReachIff` | wca/resctrl_allocations.py:262-292 | The rows of every value reach the group it names if and only if every value with rows has the rows of a value that is kept in that group and comes first in its own group for one of the objects |
| `AllocationWrites.StraysIff` | wca/resctrl_allocations.py:280-292 | Rows are written to another group than the one they are marked under if and only if a value that comes first in its group and has rows is kept in another group than it names |
| `AllocationWrites.ChangesetIsHomeIff` | wca/resctrl_allocations.py:159-235 | For one container, what the comparison of two values gives to perform is kept in the group it names if and only if it moves there or the current value is |
| `AllocationWrites.AloneIsRight` | wca/resctrl_allocations.py:262-292 | If the current value is kept in the group it names and no other value names that group or is kept in it, the group holds afterwards what the diff of the value says |
| `AllocationWrites.StaysPut` | wca/resctrl_allocations.py:196-235 | In the same group nothing moves, and of the rows only those asked for are written |
| `AllocationWrites.MoveCarries` | wca/resctrl_allocations.py:187-196 | When the groups differ the changeset has the cache and the bandwidth row asked for, the group asked for, and the current one as source |
| `AllocationWrites.MoveIsRight` | wca/resctrl_allocations.py:262-292 | If no other value touches the group moved to, every domain of the row asked for has its value there afterwards and every other is as it was; cache and bandwidth |
| `AllocationWrites.MoveIsChange` | wca/resctrl_allocations.py:187-196 | A task asked into another group gives a changeset counted by the request's object |
| `AllocationWrites.RowsMayBeLost` | wca/resctrl_allocations.py:280-292 | Two tasks move into a group and only the second brings a row: nothing is written |
| `AllocationWrites.GroupMayBeWrittenTwice` | wca/resctrl_allocations.py:40-47 | A task changes its group's row while another moves in: the group is written twice |
| `AllocationStrays.StraysAreNew` | wca/allocations.py:61-95 | A merge over current values kept in the groups they name gives rows for a wrong group if and only if a value without current counterpart, first in its group and with rows, names another group than its container is in |
| `AllocationStrays.RoundStraysIff` | wca/runners/allocation.py:327-367 | The same for a whole accepted round: the only cause is a value asked of a task that has none of this kind yet |
| `AllocationStrays.RowGoesAstray` | wca/allocations.py:72-75 | A task without current allocations is asked into another group with L3:0=3: accepted and reported, written to the group it is in, nothing reaches the group asked for |
| `AllocationRunner.MergeIsValid` | wca/runners/allocation.py:339-347 | Once the request is valid neither later validation can fail |
| `AllocationRunner.RoundIsTransactional` | wca/runners/allocation.py:327-367 | A refused request performs nothing and its target is the current allocations; an accepted one has a target valid throughout |
| `AllocationStrays.RoundPerforms` | wca/runners/allocation.py:327-367 | What an accepted round performs and reports is the changeset and the target of merging what was built |
| `AllocationFailures.MergeFailsIff` | wca/allocations.py:61-95 | A merge raises if and only if the trees clash at some path: a dictionary against a value, or two values whose comparison raises |
| `AllocationFailures.ValidLeavesClashIff` | wca/resctrl_allocations.py:341-364 | Two valid values cannot be compared if and only if their kinds differ or, in one group, a new row names a domain the group lacks |
| `AllocationEscapes.LeafEscapesIff` | wca/resctrl_allocations.py:237-260 | Validating a value raises something else than InvalidAllocations if and only if it is a list that lists nothing, an unreadable cache row on a platform that controls the cache, or a bandwidth row that cannot be parsed next to a cache row that passes |
| `AllocationEscapes.LeafPassesIff` | wca/resctrl_allocations.py:237-260 | Validating a value succeeds exactly for a number within its bounds, with swap off where needed, for an empty list or one that lists cpus that are there, and for rows that are accepted on a platform that controls them |
| `AllocationEscapes.CheckedEscapesIff` | wca/allocations.py:107-109 | Values in a row raise something else if and only if one of them does and all before it are valid and name no more groups than there are CLOSIDs |
| `AllocationEscapes.BuildingIff` | wca/runners/allocation.py:86-147 | A request is built if and only if tasks and kinds are known, values valid and groups within the limit; it raises something else than InvalidAllocations if and only if a value does, tasks up to its own are known and everything before it passes |
| `AllocationFailures.RoundRaisesIff` | wca/runners/allocation.py:302-357 | A round raises if and only if the current allocations cannot be built, or Kubernetes does not refuse the request and it has such a value or can be built and clashes with what its tasks have; all conditions are on what is asked and what is there |
| `AllocationFailures.RoundIsAcceptedIff` | wca/runners/allocation.py:327-357 | A round is accepted if and only if both can be built, Kubernetes does not refuse the request and nothing asked clashes with what its task has |
| `AllocationFailures.KubernetesRefusesIff` | wca/runners/allocation.py:150-162 | Kubernetes refuses exactly the requests that ask for cpu shares while tasks of several classes run |
| `AllocationFailures.KubernetesRefusal` | wca/runners/allocation.py:327-357 | Such a request performs nothing and is refused |
| `AllocationFailures.ClashIsAssertionError` | wca/runners/allocation.py:339-357 | Where both can be built a clash is an AssertionError out of the round |
| `AllocationFailures.MalformedRowEscapes` | wca/runners/allocation.py:327-357 | A request whose row is L3:0 raises a ValueError out of the round, whatever the current allocations |
| `AllocationFailures.UnknownDomainEscapes` | wca/resctrl_allocations.py:341-364 | A group has L3:0=3 and L3:0=f;1=f is asked for: both rows are valid, and the round raises an AssertionError |
| `AllocationRunner.GroupsOfTarget` | wca/resctrl_allocations.py:29-54 | The groups after a merge are those the request names and those of values it leaves alone |
| `AllocationRunner.TargetWithinLimitIff` | wca/resctrl_allocations.py:29-54 | The target keeps to the number of CLOSIDs if and only if those groups do; the validations do not check it |
| `AllocationRunner.LimitMayBeExceeded` | wca/runners/allocation.py:327-350 | With one CLOSID a request for one task is accepted while another task keeps its own group |
| `ListFormat.DecodeListformat` | wca/platforms.py:692-717 | The nested loops denote the union of the parts, or a ValueError |
| `ListFormat.EncodeListformat` | wca/platforms.py:720-727 | The numbers in increasing order, joined by commas |
| `ListFormat.DecodeOfEncode` | wca/platforms.py:692-727 | Every finite set of non-negative numbers is read back as it was written |
| `ListFormat.DecodedIsNonNegative` | wca/platforms.py:692-717 | Whatever is read has no negative number |
| `ListFormat.DecodeRaisesIff` | wca/platforms.py:692-717 | A ValueError exactly for a text that is not blank and has a part, with at most one dash, one of whose boundaries is no integer |
| `ListFormat.DecodedIff` | wca/platforms.py:692-717 | A text denotes exactly the numbers that some part lists, alone or within a range |
| `ListFormat.ListsNothingIff` | wca/platforms.py:692-717 | A text lists nothing exactly when it is blank or each part has more than one dash or is a range that ends before it starts |
| `ListFormat.TwoDashesListNothing` | wca/platforms.py:702-716 | 1-2-3 lists nothing |
| `ListFormat.BackwardRangeListsNothing` | wca/platforms.py:702-716 | 3-1 lists nothing |
| `ListFormat.CanonicalForm` | wca/platforms.py:692-727 | Encoding what was decoded denotes the same set, is a fixed point, and is shared by exactly the texts of that set |
| `ListFormat.CanonicalIsExpanded` | wca/platforms.py:720-727 | The canonical text lists its numbers one by one in strictly increasing order |
| `Schemata.ParseSchemataFileRow` | wca/resctrl_allocations.py:295-338 | The loop over domains gives the dictionary of domains, or a ValueError |
| `Schemata.ParseInvertsPrint` | wca/resctrl_allocations.py:295-338 | A line is read as a row if and only if it is that row of distinct well-formed domains written down after a resource name; all other lines are ValueErrors |
| `MemoryBandwidth.ValidateDomains` | wca/resctrl_allocations.py:367-377 | Accepted exactly when every id is a number of a socket |
| `MemoryBandwidth.NormalizeMbString` | wca/resctrl_allocations.py:395-419 | Prefix, row, domains and values are checked, then the row is written with raised values |
| `MemoryBandwidth.NamesSocketsIff` | wca/resctrl_allocations.py:367-377 | Domains exist exactly when every id is a number from zero to one less than the sockets |
| `MemoryBandwidth.NormalizedIff` | wca/resctrl_allocations.py:395-419 | A row is normalised exactly when it starts with MB:, parses, names sockets only, and has no value below the minimum |
| `MemoryBandwidth.NormalizingRaises` | wca/resctrl_allocations.py:395-432 | The same ids in the same order, every value raised to the least multiple of the granularity not below it |
| `MemoryBandwidth.NormalizingTwice` | wca/resctrl_allocations.py:395-432 | Normalising is idempotent |
| `Cbm.CheckBits` | wca/resctrl_allocations.py:450-466 | The loop over the binary digits counts the ones and finds a gap |
| `Cbm.CheckCbmMask` | wca/resctrl_allocations.py:444-472 | The checks in their order, with the error each raises |
| `Cbm.AcceptsExactlyBlocks` | wca/resctrl_allocations.py:444-472 | A mask is accepted if and only if it is at most the full mask and its magnitude is a block (2^k-1)*2^j with k at least the minimum |
| `Cbm.MaskVerdictIff` | wca/resctrl_allocations.py:444-472 | The texts accepted, and those that raise a ValueError: a mask that is no number, or a minimum that is none for a mask that gets as far |
| `Cbm.BlockIsProduct` | wca/resctrl_allocations.py:450-466 | A block of k ones followed by j zeros is the number (2^k-1)*2^j |
| `Cbm.CountsTheEnabledBits` | wca/resctrl_allocations.py:435-472 | For an accepted mask the counted ones are the enabled bits the metrics report |
| `Cbm.AcceptedIsSubset` | wca/resctrl_allocations.py:444-449 | An accepted mask that is not negative is a bitwise subset of a full mask 2^n-1 |
| `Cbm.NegativeMaskPasses` | wca/resctrl_allocations.py:444-449 | A negative mask is accepted if and only if its magnitude is a long enough block, whatever the full mask |
| `Cbm.NegativeMaskExample` | wca/resctrl_allocations.py:444-449 | "-ff" is accepted where there are four ways |
| `Rdt.ValidateL3String` | wca/resctrl_allocations.py:380-392 | Prefix, row, domains, then every mask; the first failure is raised |
| `Rdt.L3VerdictIff` | wca/resctrl_allocations.py:380-392 | A row passes if and only if it parses, its domains exist and all masks are accepted; it raises a ValueError if and only if it does not parse, or its domains exist and its first mask not accepted is unreadable |
| `Rdt.GetMaxRdtValues` | wca/resctrl.py:350-368 | The loop writes every socket with the full mask and with one hundred |
| `Rdt.FullRowParses` | wca/resctrl.py:350-368 | Those rows are read back as every socket mapped to that value |
| `Rdt.FullL3IsValid` | wca/resctrl.py:350-368 | The largest cache row is valid if and only if the full mask is a block of at least the minimum number of ways |
| `Rdt.FullMbIsValid` | wca/resctrl.py:350-368 | The largest bandwidth row can be normalised if and only if the minimum is at most one hundred |
| `Rdt.IsRdtSuballocationChanged` | wca/resctrl_allocations.py:341-364 | Both rows are parsed and compared domain by domain, with the errors and assertions on the way |
| `Rdt.SameTextIsSameNumber` | wca/resctrl_allocations.py:350-351 | Of any two texts that int reads, those called equal are the same number; the same number, one text written plainly, is called equal if and only if the other has nothing but lower-case digits behind its leading blanks and zeros |
| `Rdt.LeadingMakesNoDifference` | wca/resctrl_allocations.py:350-351 | Leading blanks and zeros never make a difference |
| `LeadingZeros.SignificantIs` | wca/resctrl_allocations.py:350-351 | What is compared is the text from the first character that is neither a blank nor a zero |
| `Rdt.SameNumeralsIff` | wca/resctrl_allocations.py:350-351 | Of two plain numerals, the same number means equal in lower case, and is reported as a change if and only if the significant digits differ in letter case only |
| `Rdt.NeedlessChangeIff` | wca/resctrl_allocations.py:341-364 | A new row that asks for the plainly written numbers there are is reported as a change if and only if one of its values has something else than lower-case digits behind its leading blanks and zeros |
| `Rdt.NeedlessChangeOfNumerals` | wca/resctrl_allocations.py:341-364 | Between rows of plain numerals, if and only if a value differs in letter case only |
| `Rdt.UpperCaseDiffers` | wca/resctrl_allocations.py:350-351 | For instance F and f |
| `Rdt.PrefixDiffers` | wca/resctrl_allocations.py:350-351 | For instance 0xff and ff, both 255 for the mask check |
| `Rdt.OddTextsDiffer` | wca/resctrl_allocations.py:350-351 | And +5, f_f and 5 with a blank behind |
| `Rdt.RoundIsRightPerDomain` | wca/resctrl_allocations.py:341-364 | One value alone of texts that int reads, its row written when a change is reported: every domain the new row names has the number asked for, and every other is as it was |
| `Cgroups.Cgroup.SetQuota` | wca/cgroups.py:311-337 | The period is the configured one, and the quota is rounded down, raised to the minimum or lifted |
| `Cgroups.Cgroup.GetNormalizedQuota` | wca/cgroups.py:261-271 | The quota read as a fraction of all cpus |
| `Cgroups.Cgroup.SetShares` | wca/cgroups.py:296-309 | The shares are rounded down or raised to the minimum |
| `Cgroups.Cgroup.GetNormalizedShares` | wca/cgroups.py:254-259 | The shares read in the configured unit |
| `Cgroups.PerformQuota` | wca/cgroups_allocations.py:54-57 | The task's cgroup gets the quota and its children are left unlimited |
| `Cgroups.QuotaCloses` | wca/cgroups.py:261-337 | The same request needs no change next round if and only if it was not clamped or was raised by at most the tolerance; an unclamped one is read back less than one unit lower, and writing back what was read changes nothing |
| `Cgroups.QuotaIsAShare` | wca/cgroups.py:311-337 | From one on the limit is lifted with -1; below, the file holds the share of the time of all cpus in a period in whole units, at least a thousand |
| `Cgroups.ReadIsAShare` | wca/cgroups.py:261-271 | -1 reads as one, anything else as that share |
| `Cgroups.ClampedForever` | wca/cgroups.py:326-337 | A tenth of one cpu with the shortest period is written again in every round |
| `Cgroups.SharesClose` | wca/cgroups.py:254-309 | Shares always settle, even when raised to the minimum |
| `Cgroups.SharesAreInUnits` | wca/cgroups.py:254-309 | The file holds the shares in the configured unit, in whole units, at least two |
| `Wss.WSS.CheckStability` | wca/wss.py:78-115 | The counter goes up by one or to zero, and the first stable value is remembered when it starts |
| `Wss.WSS.GetMeasurements` | wca/wss.py:159-248 | A measurement refines the step function: counter, remembered values, metric reported, resets |
| `Wss.RunHolds` | wca/wss.py:159-248 | Between calls the counter is below the cycles needed or one past them, and while it counts the first stable value is known |
| `Wss.EventsAreRare` | wca/wss.py:159-248 | After t calls there were at most t div (N+1) stable events |
| `Wss.MetricIsLate` | wca/wss.py:205-236 | The working-set metric is never reported before call 2(N+1), and never while the meter is off |
| `Wss.MetricIsAMean` | wca/wss.py:221-236 | The metric is always the mean of two amounts that were measured |
| `WssStability.EventIff` | wca/wss.py:78-115 | A call meets a stable event exactly when it is measured, the counter is one short, and against the measured call before memory grew by less than the share of the traffic, which is positive, and shrank by less than two percent |
| `WssStability.EventIsEarned` | wca/wss.py:159-248 | Over any run every event is the last of as many such calls in a row as are needed |
| `WssStability.SteadyGivesEvent` | wca/wss.py:159-248 | From counter zero, that many such calls give an event unless a reset interval ends before |
| `WssStability.NoEventWithoutTraffic` | wca/wss.py:85-100 | There is no event while the bandwidth counter does not advance |
| `WssStability.MetricIsMeanOfStretch` | wca/wss.py:205-236 | An event reports the mean of what the first and the last of its steady calls measured, the very first nothing; other calls report what was reported before |
| `WssStability.RestartsIff` | wca/wss.py:205-248 | After a measured call the comparison starts afresh exactly when a reset interval ends with it, or it met an event and resetting waits for stability |
| `Wss.QuietRunReachesTheBound` | wca/wss.py:159-248 | Quiet samples with resetting on stability give exactly that many events |
| `Numa.GetCurrentNode` | wca/extra/numa_allocator.py:440-445 | The first node with exactly the decoded cpus, or none |
| `Numa.BuildBalancedMemory` | wca/extra/numa_allocator.py:348-361 | The lists of the nodes add up to the memory pinned to each |
| `Numa.GetBestMemoryNode` | wca/extra/numa_allocator.py:448-457 | The first node of the best score rounded to four digits |
| `Numa.ChosenNodeIsNearlyBest` | wca/extra/numa_allocator.py:448-457 | Pinned memory S of the chosen node and L of any other satisfy 10000 m (S-L) <= (S+m)(L+m); ties go to the lowest number |
| `NumaWrites.RoundingMayPreferMore` | wca/extra/numa_allocator.py:448-457 | A task of size one scores 4999 and 4166 of pinned memory alike, and 3700 higher |
| `Numa.FindTask` | wca/extra/numa_allocator.py:152-173 | The loop over the sorted tasks finds the first that is neither pinned nor without memory |
| `Numa.ChosenIsBiggest` | wca/extra/numa_allocator.py:336-345 | It is one of the biggest such tasks, and is missing only when there is none |
| `NumaWrites.FirstOfBiggest` | wca/extra/numa_allocator.py:336-345 | Of equally big tasks the first listed is taken |
| `Numa.AllocateTask` | wca/extra/numa_allocator.py:232-253 | What is written for the chosen task |
| `Numa.RemigratePages` | wca/extra/numa_allocator.py:275-305 | Pages of unbalanced tasks on the emptiest node are moved |
| `Numa.RemigratingPinsNothing` | wca/extra/numa_allocator.py:275-305 | Moving pages assigns no cpus |
| `Numa.MovesPagesOfUnbalanced` | wca/extra/numa_allocator.py:275-305 | Exactly the pinned tasks on the emptiest node with too few pages there get their pages moved |
| `NumaWrites.RoundWrites` | wca/extra/numa_allocator.py:132-305 | A round writes cpus, memory node and pages for one biggest task to pin, moves the pages of pinned tasks that have too few on the first node with most free memory, and writes nothing else |
| `NumaWrites.DryRunWritesNothing` | wca/extra/numa_allocator.py:132-150 | A dry run writes nothing, and raises exactly when some cpus cannot be read |
| `Numa.Allocate` | wca/extra/numa_allocator.py:132-203 | A round refines the specification: unreadable cpus raise, a dry run does nothing |
| `Numa.PinIsRecognised` | wca/extra/numa_allocator.py:232-239 | A task with a node's cpus written is found on that node in the next round |
| `Numa.RoundPinsOne` | wca/extra/numa_allocator.py:132-203 | A round pins exactly one biggest unpinned task with memory to its best node, and leaves every other task as it was |
| `NumaWrites.RoundAddsMemory` | wca/extra/numa_allocator.py:132-203 | A round adds the memory of the task it pins to the memory pinned to its node, and nothing to another |
| `Numa.PinningProgresses` | wca/extra/numa_allocator.py:132-203 | After k rounds there are k fewer tasks to pin, down to none |
| `Numa.AllPinnedAtLast` | wca/extra/numa_allocator.py:132-203 | After as many rounds as there were tasks to pin, every task with memory is pinned |
| `Numa.PinnedStays` | wca/extra/numa_allocator.py:132-203 | A pinned task keeps its cpus and its node in every later round |
| `Containers.Container.Cleanup` | wca/containers.py:231-235 | Every counter is closed once more, and with RDT the container is removed from its group |
| `Containers.ContainerManager.FindNewTasks` | wca/containers.py:644-649 | The new tasks are exactly those whose cgroup is unknown |
| `Containers.ContainerManager.RemoveOrphans` | wca/containers.py:525-548 | The containers of gone tasks are closed, the others kept as the same objects |
| `Containers.ContainerManager.AddTasks` | wca/containers.py:578-580 | Every new task gets a container of its own |
| `Containers.ContainerManager.Refresh` | wca/containers.py:582-593 | Containers whose sub-cgroups changed are closed and recreated, the others stay the same objects |
| `Containers.ContainerManager.AssignGroups` | wca/containers.py:595-606 | With RDT every container gets the group it was found in, or the root group; without it none is set |
| `Containers.ContainerManager.SyncContainersState` | wca/containers.py:512-611 | Afterwards the keys are exactly the discovered tasks, containers have their tasks' paths and sub-cgroups, unchanged tasks keep their object, and every container ever created is live and open or was closed, and removed from its group, exactly once |
| `Containers.ContainerManager.Cleanup` | wca/containers.py:613-615 | Everything ever opened has been closed, once |
| `Containers.AllFit` | wca/containers.py:541-593 | Matching by path and refreshing by sub-cgroups keeps the object of every unchanged task |
| `Metrics.ListLeveledMetrics` | wca/metrics.py:1342-1357 | The recursive loop appends every value at its leaf |
| `Metrics.OperationOnLeveledMetric` | wca/metrics.py:1360-1370 | The recursive loop replaces every list by its sum |
| `Metrics.MergeMeasurements` | wca/metrics.py:1303-1339 | The merged metrics are those some container has, each merged at its own depth |
| `Metrics.ListedAtPath` | wca/metrics.py:1342-1357 | Listing treats every path on its own: the value is appended to the list there |
| `Metrics.MergedIsSum` | wca/metrics.py:1303-1370 | A leaf exists when some container has it and is the sum of what the containers have |
| `Metrics.MergedIgnoresOrder` | wca/metrics.py:1303-1339 | Permuting the containers changes no leaf |
| `Metrics.MergingConserves` | wca/metrics.py:1303-1370 | The sum over the leaves of a merged metric is the sum over all containers' leaves |

## Left out

- Floating-point rounding: numbers are exact, except for the explicit rounding to four digits in the NUMA scores.
- Files, system calls, process ids, HTTP, Kafka and the Kubernetes API: only the values read or written are modelled.
- Logging, profiling and emitted metric objects, with the page counters of the NUMA allocator that only feed them.
- Non-ASCII digits and spaces, which Python's `int` and `strip` also accept.
- Concurrent changes of control files between a write and the next read: what is applied is read back unchanged.
- `perform_allocations` of RDT values: the rows written are modelled, not the moves of processes between groups.
- `TasksAllocationsValues.create`: the raw value of an allocation comes with the context its constructor takes from the
  container; constructors that fail on a wrong type are not modelled.
- `validate_shares_allocation_for_kubernetes`: whether tasks of several classes run is an input.
- `AllocationsDict`: the merged dictionaries are values, since the program copies them before it fills them; sharing of
  leaf objects between target, changeset and request is not modelled.
- Metrics.ListLeveledMetrics: nested dictionaries are returned instead of updated in place, so sharing between levels is
  not modelled.
- Metrics.MergeMeasurements: merge operations other than the sum are not modelled.
- HierBar.AppFitNodes: accepted and failed nodes are sets, as the program builds them from sets; the texts explaining a
  failure are not modelled.
- HierBar.CalculateClassVariances: classes that cannot be scored (capacities of zero, fewer than two dimensions) raise in
  the program and are excluded here; the variance is the square of the standard deviation, which orders classes alike.
- HierBar.MergeShapes: shapes whose write bandwidth is zero in whole numbers raise a division error in the program and
  are excluded here.
- Score.Reschedule: nothing is claimed about duplicates in the result; the dictionary of sorted tasks is flattened into
  one list in the same order. Node filtering by type in `app_fit_nodes` and the DRAM hit ratio are not modelled.
- Fit: priorities are constant as in the base class; the bar-based scoring algorithms are not modelled.
- Numa.Allocate: the migration minimizer, the check of free space and the memory-migrate option are not modelled; memory
  limits, page shares and free memory are inputs.
- Containers.ContainerManager.SyncContainersState: control groups come as an input keyed by cgroup path; cleaning of
  taskless groups is not modelled. Task identifiers and cgroup paths are distinct, as the program assumes.
- Containers.ContainerManager.Cleanup: the containers stay in the dictionary as in the program, so a second cleanup
  would close them again.
- Wss.WSS.GetMeasurements: counting referenced pages and clearing them is outside; their result is an input.
- Simulator: an algorithm answers by a function of the tasks; a different one may answer in every round.
- KafkaStorage, the admission controller, perf counters, configuration loading and the experiments.
