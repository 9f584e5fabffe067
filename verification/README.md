# RaNNC: partitioning, deployment and pipelined execution

RaNNC cuts a neural network into stages, places the stages on devices and runs them as a pipeline in
which data is redistributed between stages. This project models the discrete parts of that chain and
proves what they guarantee. Tensors are opaque values or sequences of elements, operators are
uninterpreted functions, measured costs are arbitrary functions.

The modules, from the network to the running pipeline:

- `Options`, `Arithmetic`, `Orders`: optional values, products and division with remainder, the orders used below.
- `IR`: graphs in single assignment form and their meaning. `DeadNodes`, `CloneInputs`, `GraphMerge`:
  the passes over them, each with the exact condition under which it preserves meaning.
- `Coarsening`: merging layers into larger ones. `MergeCache`, `LayerMerging`: the memoised merge of
  consecutive layers. `Selection`, `Staging`, `StageSearch`, `Estimate`: keeping the best candidate of a
  loop, the dynamic program over stages, the search around it, and the time estimate. `Allocation`: devices for stages.
- `Deployment`, `Routing`: connections, routes and the check on them. `StagedRun`: running stages one
  after the other.
- `Rendezvous`: processes with blocking transfers, a general argument for deadlock freedom.
  `Pipeline`, `PipelineRun`, `GraphConnector`: the schedule, its runs, and one rank's object.
- `BatchSplit`, `BatchDims`, `Redistribution`, `Exchange`: batch slices, and the exchange of data
  between the ranks of two stages.
- `ParamSegments`: parameters spread over ranks.
- `PipelinedNetwork`: the pipelined run of a deployment, over all splits of a batch, never deadlocks, and
  leaves in every stage, for every split, what the uncut network computes.
- `PlannedStages`, `PlannedPipeline`: the main result, from the layers to the run. When the layers are a
  cut of the network and merging them loses no output of a node, then for every plan of the search the
  merged ranges of layers are a cut again, to be deployed and run as above, if and only if no stage
  swallows a network output, that is, computes it, reads it again and is the last to read it.

A process of the pipeline is the rank group of one stage, as the flat allocation gives it; a transfer
between two groups is one rendezvous. The exchange inside a transfer is modelled rank by rank in
`Exchange`. Failing assertions and exceptions are `None`, `false`, or a condition in a `requires` clause
where the source leaves the behaviour undefined.

Where the code does not do what it is for, the model follows the code, and the exact condition is
proved: `RemovalSafeIff`, `MergeRunsIff`, `CloneSharedInputs`, `RowsCoverIff`, `LocalBatchIff`,
`BatchMatchesIff`, `StageVerifiedIff`, `FinishesIffComplete`, `OneGroupEachIff`, `LevelsConserveIff`,
`SameSegmentsIff` and `PlanIsCutIff` are equivalences of this kind. `HalfUsedNodeBreaks`,
`ClippedNodeLoses`, `DoubleUseFails`, `RowsCanBeLost`, `UnequalSplitsDiffer`, `MinusOneCountsTwice`,
`StoreAgainFails`, `StaleRange` and `SwallowedOutputFails` are the failing inputs.

## Model

| member | source | states |
|---|---|---|
| PlannedPipeline.PlannedPipelineComputesNetwork | src/graph/DPStaging.cpp:627-651 | for every plan of the search that swallows no network output, every pipelined run of its deployment can be continued to the end, where every stage holds for every split what the uncut network computes |
| PlannedPipeline.PlanIsCutIff | src/graph/DPStaging.cpp:627-651 | when the layers are a cut of the network and merging loses no output of a node, the stages of a plan are a cut if and only if no stage swallows a network output |
| PlannedPipeline.OneOutputIsWhole | src/graph/MLGraph.cpp:306-327 | when every node writes at most one value, no merge of consecutive layers loses a value |
| PlannedPipeline.StagesRoutable | src/graph/Decomposition.cpp:473-508 | what can be routed between the layers can be routed between the stages of any plan |
| PlannedStages.RangeOutputsIff | src/graph/MLGraph.cpp:225-234 | a merged range outputs exactly the values of its layers that a later layer reads or that none of its own layers reads |
| PlannedStages.PlanServes | src/graph/DPStaging.cpp:627-645 | the stages of any plan have different names, one producer for each value, consistent descriptions, unrepeated inputs, and are given all they read; network outputs are produced if and only if none is swallowed |
| PlannedStages.OutputsProducedIff | src/graph/MLPartDecomposer.cpp:75-77 | the assertion on network outputs holds for the stages if and only if no stage reads a network output of its own that no later layer reads |
| PlannedStages.SwallowedOutputFails | src/graph/MLGraph.cpp:93-105 | two layers whose outputs are both network outputs, the second reading the first: partition fails for one stage and succeeds for two |
| PipelinedNetwork.PipelineComputesNetwork | src/comp/GraphConnector.cpp:280-354 | every pipelined run of a deployment can be continued to the end, where every stage holds for every split what the uncut network computes on that split |
| PipelinedNetwork.PipelinedRunIsWhole | src/comp/GraphConnector.cpp:280-354 | in every state of every run, whatever a stage holds for a split is the uncut network's value for that split |
| PipelinedNetwork.OutputsAreWhole | src/graph/MLPartDecomposer.cpp:75-81 | when a batch is done, each network output is found, with the uncut network's value, at the stage that its outgoing route names |
| PipelinedNetwork.AloneIsWhole | src/comp/Validator.cpp:157-182 | a stage fed only from its routes outputs the uncut network's values, for each split separately |
| PipelinedNetwork.PlanIsValid | src/graph/Decomposition.cpp:447-459 | in a topological graph order of its pass every route of the deployment goes forward, in the forward and in the backward pass, so its delay is not negative |
| PipelinedNetwork.BackwardsSorts | src/graph/Decomposition.cpp:447-459 | a forward graph order read backwards is a topological order of the backward routes |
| PipelinedNetwork.BackwardPassFinishes | src/comp/GraphConnector.cpp:280-354 | whatever the stages compute in it, every run of the backward pass can be continued to the end, where every stage holds for every split what running that split through the stages alone computes |
| Rendezvous.StepKeepsInStep | src/comp/GraphConnector.cpp:296-349 | whatever step is taken, both ends of a transfer pass it together |
| Rendezvous.HeadsAgree | src/comp/GraphConnector.cpp:308-335 | two processes that meet on a channel are at the same transfer |
| Rendezvous.Progress | src/comp/GraphConnector.cpp:296-349 | no deadlock: if all programs follow one global order and sends match receives, an unfinished state has an enabled action |
| Rendezvous.RunBounded | src/comp/GraphConnector.cpp:296-349 | no run has more steps than the programs have events |
| Rendezvous.RunsFinish | src/comp/GraphConnector.cpp:296-349 | a run that cannot be extended has finished every process |
| Rendezvous.UnsentBlocks | src/comp/GraphConnector.cpp:337-348 | if a transfer that is awaited is never made, no run finishes its destination |
| Pipeline.MaxDelayIs | src/comp/GraphConnector.cpp:46-57 | no route has a larger delay, and one has it unless nothing is delayed, when it is zero |
| Orders.NameLessIs | src/comp/GraphConnector.cpp:128-130 | names are ordered as strings are: by the first character in which they differ, a proper prefix first |
| Pipeline.SortRoutesSorts | src/comp/GraphConnector.cpp:118-134 | sorting keeps exactly the routes, by delay, then name, and ties in list order |
| Pipeline.RouteTables | src/comp/GraphConnector.cpp:148-162 | a stage's tables hold exactly the routes into it and out of it, in that order |
| Pipeline.ProgramIs | src/comp/GraphConnector.cpp:296-349 | a stage performs exactly its receives, computes and delayed or flushed sends, in the global order of time boundary, source from last to first, destination, name |
| Pipeline.RouteCarriesEverySplit | src/comp/GraphConnector.cpp:74-105 | whatever its delay, a route is used for splits 0..P-1 exactly once each and in order at both ends |
| Pipeline.NetIsWellFormed | src/comp/GraphConnector.cpp:118-134 | the global order agrees with every stage's local order, and what is sent is awaited |
| Pipeline.CompleteReceivesSent | src/comp/GraphConnector.cpp:337-348 | every receive has its send when all planned splits run or nothing is delayed |
| PipelineRun.StepKeepsGood | src/comp/GraphConnector.cpp:296-349 | every compute and every transfer keeps: stored values are right, and what waits to be used is right and for the next split |
| PipelineRun.SameHeads | src/comp/GraphConnector.cpp:308-335 | a receiver that expects split s meets its sender at split s |
| PipelineRun.PipelinedEqualsAlone | src/comp/GraphConnector.cpp:74-105 | in every run, stored values are those of running each split through the stages alone; at the end all of them are there |
| PipelineRun.CanStep | src/comp/GraphConnector.cpp:296-349 | an unfinished state with right values has a successor |
| PipelineRun.RunsAreBounded | src/comp/GraphConnector.cpp:296-349 | runs end |
| PipelineRun.EveryRunCanFinish | src/comp/GraphConnector.cpp:296-349 | every run can be continued until every stage has finished |
| PipelineRun.ShortRunNeverFinishes | src/comp/GraphLauncher.cpp:139-139 | with fewer splits than planned and a delayed route, no run finishes |
| PipelineRun.FinishesIffComplete | src/comp/GraphConnector.cpp:338-338 | some run finishes if and only if all planned splits run, none does, or nothing is delayed |
| GraphConnector.FilterRecv | src/comp/GraphConnector.cpp:137-154 | the loop selects the routes into a stage |
| GraphConnector.FilterSend | src/comp/GraphConnector.cpp:156-162 | the loop selects the routes out of a stage |
| GraphConnector.GetMaxDelay | src/comp/GraphConnector.cpp:46-57 | the loop computes the largest delay |
| GraphConnector.RecvPass | src/comp/GraphConnector.cpp:306-320 | the receives of a split, in table order, with their values |
| GraphConnector.SendOne | src/comp/GraphConnector.cpp:74-105 | sends the split that is due if there is one yet, with the value stored for it |
| GraphConnector.SendPass | src/comp/GraphConnector.cpp:326-335 | one pass over the send routes performs the sends of the schedule, each with the value stored for its split |
| GraphConnector.FlushPasses | src/comp/GraphConnector.cpp:337-348 | passes 1..max delay perform the flush of the schedule |
| GraphConnector.Connector.constructor | src/comp/GraphConnector.cpp:164-207 | builds the route tables and the largest delay |
| GraphConnector.Connector.ComputeSplit | src/comp/GraphConnector.cpp:280-354 | one call performs exactly the events of its split, stores the computed value, and sends under each route the value of the split that is due |
| Redistribution.WalkPeers | src/comm/SComm.cpp:31-59 | the walk over peers gives each the exact overlap of two intervals and its place, although it stops early |
| Redistribution.CountsFor | src/comm/SComm.cpp:25-63 | counts and displacements of one rank are right for all peers |
| Redistribution.GetRedistArgs | src/comm/SComm.cpp:573-623 | what a rank computes on its own is right for every member of the communicator, for senders, receivers and ranks that are both |
| Redistribution.CountSymmetric | src/comm/SComm.cpp:46-50 | what i sends to j is what j expects from i |
| Redistribution.ExchangeKeepsElement | src/comm/SComm.cpp:99-135 | whatever the distributions, an element with room on both sides keeps its place in the whole |
| Redistribution.RedistributionPreserves | src/comm/SComm.cpp:573-623 | the destination buffers together equal the source buffers together if and only if the totals are equal |
| Exchange.RankProgramIs | src/comm/SCommCommon.cpp:467-517 | a rank sends and receives exactly its positive amounts, in the global order of pairs |
| Exchange.StepKeepsGood | src/comm/SCommCommon.cpp:471-516 | every step keeps all delivered data in place |
| Exchange.EveryRunCanFinish | src/comm/SCommCommon.cpp:467-517 | blocking sends and receives in this order cannot deadlock, for any number of ranks and any amounts |
| Exchange.FinishedIsDelivered | src/comm/SCommCommon.cpp:467-517 | at the end every message lies in its place |
| Exchange.ComputedAgree | src/comm/SComm.cpp:573-623 | the separately computed amounts of all ranks agree pairwise |
| Exchange.ComputedLayout | src/comm/SComm.cpp:573-623 | they fit the buffers, and no two messages to one rank overlap |
| Exchange.FinishedIsExchanged | src/comm/SCommCommon.cpp:518-522 | the ordered exchange leaves what the all-to-all call would leave |
| Exchange.ExchangePreserves | src/comm/SCommCommon.cpp:460-523 | end to end: with equal totals, the destination ranks hold the source data, whole and in order |
| Exchange.ExchangeWith | src/comm/SCommCommon.cpp:471-516 | one turn of the loop, in place on the receive buffer |
| Exchange.Redist | src/comm/SCommCommon.cpp:460-517 | the loop of one rank performs its messages in order and fills its receive buffer |
| BatchSplit.SumHitsIsAll | src/Common.cpp:258-269 | in round robin every sample belongs to one rank |
| BatchSplit.HitsIsShare | src/Common.cpp:206-222 | a run of samples gives a rank the share of a rotated slot |
| BatchSplit.GetSplitBatchSizes | src/Common.cpp:206-241 | the sizes are nearly equal shares, rotated as if all earlier splits had the same size |
| BatchSplit.GetLocalSplitBatchSizes | src/Common.cpp:258-269 | in every split a rank takes exactly its samples in round robin over the whole batch |
| BatchSplit.RanksShareSplit | src/comp/GraphLauncher.cpp:148-152 | the slices of all ranks add up to the split |
| BatchSplit.SplitsShareRank | src/comp/GraphLauncher.cpp:148-152 | over the splits a rank takes its nearly equal share |
| BatchSplit.LocalBatchIff | src/comp/GraphLauncher.cpp:132-133 | every rank gets exactly its part of the batch if and only if the world size divides it |
| BatchSplit.SlicesMatchIff | src/Common.cpp:228-238 | the launcher's slices are those that redistribution assumes, on every rank, if and only if the rotations agree |
| BatchSplit.EqualSplitsMatch | src/Common.cpp:228-238 | they are while all splits so far have equal size |
| BatchSplit.GetSplits | src/Common.cpp:243-256 | the splits of a batch are its nearly equal shares, the larger ones first |
| BatchSplit.SplitMatchesIff | src/comp/GraphLauncher.cpp:148-152 | for the splits that the launcher makes, split i matches on every rank if and only if it is one of the larger ones, or the world size divides the size of the smaller ones or the number of the larger ones |
| BatchSplit.BatchMatchesIff | src/comp/GraphLauncher.cpp:148-152 | all splits of a batch match if and only if the world size divides the size of the smaller ones or the number of the larger ones |
| BatchSplit.UnequalSplitsDiffer | src/comp/GraphLauncher.cpp:148-152 | a batch of four in three splits on two ranks is cut into 2, 1 and 1, and the second split differs |
| BatchDims.CalcDistBatchDims | src/Common.cpp:280-301 | the shape of each rank, with truncating division |
| BatchDims.RowsCoverIff | src/Common.cpp:291-298 | at any split the shapes cover the tensor if and only if the batch size divides the leading dimension or the number of ranks divides both |
| BatchDims.RowsCanBeLost | src/Common.cpp:296-296 | three rows for a batch of two over two ranks lose one row |
| BatchDims.BatchRedistributionIff | src/comm/SComm.cpp:573-623 | redistribution between any numbers of ranks, at any split, brings over the whole tensor unchanged if and only if it is empty or the shapes of both sides cover it |
| IR.VerifyNodeInputs | src/graph/ir.cpp:653-674 | accepts exactly the graphs whose nodes read inputs and earlier outputs |
| IR.EvalWithin | src/comp/Validator.cpp:176-176 | a well-ordered graph fed values of a valuation computes values of it, and defines what its nodes write |
| IR.EvalSolves | src/comp/Validator.cpp:129-129 | a single-assignment graph has such a valuation |
| DeadNodes.DetectUnusedNodes | src/graph/ir.cpp:720-747 | finds exactly the nodes with an unreferenced output |
| DeadNodes.RemoveUnusedNodes | src/graph/ir.cpp:764-807 | the loop ends, with fewer nodes in every round |
| DeadNodes.PruneIsSelection | src/graph/ir.cpp:768-783 | what is left is a selection in order, and has no node with an unreferenced output |
| DeadNodes.NothingUnusedLeft | src/graph/ir.cpp:764-783 | no node of the result has an unreferenced output |
| DeadNodes.RemovedListing | src/graph/ir.cpp:785-806 | nodes and inputs keep their order, and exactly the inputs and values that an output or a remaining node refers to stay, with their descriptions |
| DeadNodes.KeptIsLive | src/graph/ir.cpp:734-744 | a node that is kept has only live outputs |
| DeadNodes.KeptIffLive | src/graph/ir.cpp:764-783 | when no node is half live, exactly the live nodes are kept |
| DeadNodes.OutputsKept | src/graph/ir.cpp:800-804 | graph outputs are never dropped |
| DeadNodes.RemovalSafeIff | src/graph/ir.cpp:764-807 | the result runs and defines its outputs if and only if no node has both a live and a dead output |
| DeadNodes.RemovalPreserves | src/graph/ir.cpp:764-807 | then every output keeps its value |
| DeadNodes.HalfUsedNodeBreaks | src/graph/ir.cpp:736-743 | a node with one used and one unused output is dropped, and the used one with it |
| CloneInputs.RefCountVsOccurrences | src/graph/ir.cpp:433-441 | readers are counted once each, and clones are needed once per occurrence |
| CloneInputs.CloneNameInjective | src/graph/ir.cpp:472-475 | different inputs or numbers give different clone names |
| CloneInputs.CloneSharedInputs | src/graph/ir.cpp:456-528 | the index of the clones stays in range if and only if no node lists a shared input twice; then the result is the renamed graph |
| CloneInputs.CloneValues | src/graph/ir.cpp:482-493 | the new value table has an entry for every value that is not shared and for every clone of a shared one, and nothing else |
| CloneInputs.TableIs | src/graph/ir.cpp:482-493 | when clone names are new, a value keeps its description and a clone has that of its original |
| CloneInputs.ClonePreserves | src/graph/ir.cpp:495-523 | when the clones carry the value of their original, all outputs keep their values |
| CloneInputs.OneConsumer | src/graph/ir.cpp:499-508 | each clone is read by exactly one node |
| CloneInputs.DoubleUseFails | src/graph/ir.cpp:502-504 | a node that lists a shared input twice makes the clones run out |
| GraphMerge.Merge | src/graph/MLGraph.cpp:223-291 | the loops build the merged graph |
| GraphMerge.MergedInputsAre | src/graph/MLGraph.cpp:236-257 | which inputs the merged graph has |
| GraphMerge.MergedOutputsAre | src/graph/MLGraph.cpp:225-234 | which outputs survive; an output of the network that only the second graph reads does not |
| GraphMerge.MergedListing | src/graph/MLGraph.cpp:225-276 | nodes, inputs and outputs are parts of the two lists in their order, the first graph before the second, inputs that are no parameters before parameters |
| GraphMerge.OthersStillServed | src/graph/MLGraph.cpp:93-105 | whatever another graph reads of the two is still an output |
| GraphMerge.MergeRunsIff | src/graph/MLGraph.cpp:259-276 | the merged graph passes the check and defines its outputs if and only if no name is lost with a skipped node that is still needed |
| GraphMerge.AllOrNothingRuns | src/graph/MLGraph.cpp:213-221 | it does when a node with one output available has all of them available |
| GraphMerge.MergePreserves | src/graph/MLGraph.cpp:223-291 | it computes what the first graph followed by the second computes |
| GraphMerge.MergedProper | src/graph/MLGraph.cpp:259-276 | it is again in single assignment form, although copies of nodes were dropped |
| GraphMerge.MergeAndRemovePreserves | src/graph/MLGraph.cpp:306-327 | merging and then removing unused nodes keeps all values |
| GraphMerge.ClippedNodeLoses | src/graph/MLGraph.cpp:213-221 | a first graph that writes a and b and outputs only b, and a second that reads both: each runs, and the merged graph does not |
| MergeCache.RemainingEntries | src/graph/DPStaging.cpp:64-106 | exactly which graphs remain after merging a range, the stale entries included |
| MergeCache.ReplayIsScratch | src/graph/DPStaging.cpp:64-81 | replaying a cached merge rebuilds the bookkeeping, whichever id was generated for the merged node |
| MergeCache.SameReplay | src/graph/DPStaging.cpp:68-79 | erasing by a generated id erases nothing |
| MergeCache.GraphMergeHelper.ReplayCached | src/graph/DPStaging.cpp:60-81 | the replay reaches the longest cached prefix with the state of merging from scratch |
| MergeCache.GraphMergeHelper.Merge | src/graph/DPStaging.cpp:45-110 | whatever was merged before, the graph is that of merging from scratch, and the cached ranges stay contiguous prefixes |
| MergeCache.MergeAll | src/graph/DPStaging.cpp:45-110 | the same for every answer of any sequence of calls |
| LayerMerging.MergeLayerNames | src/graph/MLGraph.cpp:306-327 | exactly which outputs and inputs a range extended by one layer has: an input stays if it is still referenced |
| LayerMerging.RangeIs | src/graph/DPStaging.cpp:83-106 | a merged range outputs what later layers read of it and reads nothing that it outputs |
| LayerMerging.StaleUnread | src/graph/DPStaging.cpp:98-100 | nothing that a stale entry reads is an output of the range merged so far |
| LayerMerging.StaleEntriesHarmless | src/graph/DPStaging.cpp:45-110 | for sorted layers the graph is that of merging with exactly the other layers remaining |
| Coarsening.MergeEdges | src/graph/MLGraph.cpp:367-392 | edges after renaming are exactly the images, without loops, each once |
| Coarsening.BestSuccessor | src/graph/Partitioner.cpp:84-154 | the last unmatched successor with the largest improvement of at least -1: those that follow it improve less |
| Coarsening.Match | src/graph/Partitioner.cpp:68-166 | groups are formed from the next unmatched node each, alone or with its last best admissible successor, until all are matched; every node is filed under the group it was matched with; the number of groups does not drop below the minimum |
| Coarsening.FormedIsOne | src/graph/Partitioner.cpp:68-166 | the visiting order and the improvements determine the groups |
| Coarsening.OneGroupEachIff | src/graph/Partitioner.cpp:144-162 | every node is in exactly one group if and only if no partner was taken at an improvement of exactly -1 |
| Coarsening.MinusOneCountsTwice | src/graph/Partitioner.cpp:144-161 | two layers with an improvement of exactly -1: the next level holds the second one twice, and has size three |
| Coarsening.LevelLaw | src/graph/Partitioner.cpp:155-162 | whatever is counted in trees, a level counts what the one below counts, plus exactly the partners taken at -1 |
| Coarsening.MergeAdjacents | src/graph/Partitioner.cpp:42-170 | one level: its nodes are the groups, its edges are exactly the edges between different groups, each once; size and leaves are conserved if and only if no partner was taken at -1 |
| Coarsening.LevelIsOne | src/graph/Partitioner.cpp:42-170 | this determines the level, up to the order of its edges |
| Coarsening.Coarsen | src/graph/Partitioner.cpp:172-203 | the loop ends; the result is reached level by level, keeps at least the minimum, and is settled, small or at the minimum; every node is part of its home in the result, whose edges are exactly those between different homes |
| Coarsening.LevelsConserveIff | src/graph/Partitioner.cpp:172-203 | over all levels size and leaves are conserved if and only if no level takes a partner at -1 |
| Coarsening.ChooseMerge | src/graph/Partitioner.cpp:669-732 | the first smallest node with the neighbour that gives the smaller merge, the preceding one on a tie; nothing exactly when a merge of it is refused or it has no neighbour |
| Coarsening.MergeNeighbours | src/graph/Partitioner.cpp:734-752 | two neighbours become one node in place, edges are renamed |
| Coarsening.MergedContracts | src/graph/Partitioner.cpp:734-752 | this keeps the list a contraction of consecutive blocks of the original |
| Coarsening.ContractedIsSorted | src/graph/Partitioner.cpp:734-752 | such a contraction of a topologically sorted list is sorted |
| Coarsening.MergeSmall | src/graph/Partitioner.cpp:663-755 | as long as there are more nodes than asked for, each step merges the first smallest node with its better neighbour, and the loop ends early only where a merge of that node is refused; the result is a sorted contraction by consecutive blocks, not shorter than asked for |
| Coarsening.SmallIsOne | src/graph/Partitioner.cpp:663-755 | these rules determine the number of steps and the nodes that are left |
| Staging.IsPowerOfTwo | src/graph/DPStaging.cpp:9-14 | accepts exactly the powers of two |
| Staging.CheckLimits | src/graph/DPStaging.cpp:450-484 | accepts exactly the device numbers within the enabled limits |
| Staging.SearchStep | src/graph/DPStaging.cpp:450-566 | one earlier state: the cell is again what the improvements so far leave: a step is taken exactly when it is considered and cheaper than what is there |
| Staging.SearchDevs | src/graph/DPStaging.cpp:448-585 | exactly which steps are considered although the loop stops when memory runs out, and what they leave in the cell |
| Staging.BreakLosesNothing | src/graph/DPStaging.cpp:539-547 | stopping there loses nothing if fewer devices never need less memory |
| Staging.SearchCell | src/graph/DPStaging.cpp:442-586 | the cell holds what the steps taken over both loops leave; whether a step was considered or a limit left one out |
| Staging.LastRecord | src/graph/DPStaging.cpp:549-566 | a state is feasible if and only if some considered step to it is below the error value; it then holds what one such step leads to, and every considered step that comes later in loop order is worth at least as much |
| Staging.LeastStep | src/graph/DPStaging.cpp:549-556 | without communication the state is worth the least of all considered steps to it, and one of them attains it |
| Staging.SearchDown | src/graph/DPStaging.cpp:436-591 | exactly which device numbers are searched before the loop stops, what each state holds, and the next lower bound |
| Staging.Fill | src/graph/DPStaging.cpp:395-596 | the table is exactly the one that the loops describe: which states are searched, and what each holds given the level below |
| Staging.StateIsLast | src/graph/DPStaging.cpp:549-556 | the same for every feasible state of the filled table: no considered step after the recorded one is cheaper |
| Staging.StateIsLeast | src/graph/DPStaging.cpp:549-556 | and without communication every searched state of it is worth the least of the considered steps |
| Staging.TableIsOne | src/graph/DPStaging.cpp:395-596 | there is one such table: the costs determine every state |
| Selection.RecordsAreOne | src/graph/DPStaging.cpp:549-556 | the candidates that replace what is there are determined: those that cost less than what was there when their turn came |
| Selection.LastIsLeast | src/graph/DPStaging.cpp:549-556 | when a candidate is worth what it costs, the last of them is worth the least of all candidates |
| Staging.PlanOfIsPlan | src/graph/DPStaging.cpp:554-565 | a feasible state stands for a plan of its stages, layers and devices and holds the value of that plan |
| Staging.Backtrack | src/graph/DPStaging.cpp:612-651 | reads that plan out of the table, or nothing |
| Staging.ValueAtLeastSlowest | src/graph/DPStaging.cpp:130-137 | the value is at least the slowest forward and the slowest backward time together |
| Staging.ValueWithoutComm | src/graph/DPStaging.cpp:130-137 | without communication it is exactly that |
| Staging.OneStageValue | src/graph/DPStaging.cpp:130-137 | one stage is worth fwd + bwd + 2 * comm when these are not negative |
| Staging.ValueIs | src/graph/DPStaging.cpp:130-137 | with costs that are not negative a plan is worth exactly its worst step: the slowest forward and the slowest backward among the stages up to it, the last of them with its communication |
| Staging.DoRunDpComm | src/graph/DPStaging.cpp:384-657 | the answer is the one that the table of the search gives |
| Staging.AnswerMeans | src/graph/DPStaging.cpp:384-657 | whatever the costs and prunings, a non-empty answer is exactly the asked number of non-empty contiguous stages over all layers, with positive device numbers that sum to the group, within memory and limits, and its value; it is found whenever everything fits, and for one stage exactly when it can be; no considered last step after the chosen one is cheaper, and without communication its value is the least of all considered last steps |
| Staging.AnswerIsOne | src/graph/DPStaging.cpp:384-657 | there is one answer |
| StageSearch.DeviceArithmetic | src/graph/DPStaging.cpp:257-308 | nodes, replicas and devices of a replica together never exceed the devices |
| StageSearch.PermittedIs | src/graph/DPStaging.cpp:241-250 | a configured number of micro-batches is permitted if the batch is large enough for it; otherwise the doublings of the minimum, or of one, up to the maximum and the batch size are |
| StageSearch.StageNumbersTile | src/graph/DPStaging.cpp:280-281 | every number of stages that the devices allow belongs to the least number of nodes that has a device for each, and to no other |
| StageSearch.SearchPipelines | src/graph/DPStaging.cpp:298-316 | for one stage number the solutions are exactly the non-empty answers of the dynamic program at every permitted number of micro-batches, in order |
| StageSearch.AnswersMean | src/graph/DPStaging.cpp:298-316 | an answer is a plan at its numbers, and there is one if there is room for every stage and a device for each |
| StageSearch.RoomIsFound | src/graph/DPStaging.cpp:298-316 | where a combination of numbers is covered and has room, there is a solution for every permitted number of micro-batches |
| StageSearch.SearchStages | src/graph/DPStaging.cpp:296-324 | every stage number up to the last one tried is covered; with a full search, or without any solution, all of them are; otherwise the loop ends at the first that has a solution, and all solutions are for it |
| StageSearch.SearchNodes | src/graph/DPStaging.cpp:278-325 | the solutions were found at the stage numbers of their number of nodes, in loop order; with a full search, or if there are none, every stage number and node number is covered; otherwise everything tried before the numbers of the first solution is, and all solutions have these numbers |
| StageSearch.EveryStageNumber | src/graph/DPStaging.cpp:278-296 | where all numbers of nodes are covered, every number of stages that there are devices and layers for is, on the least number of nodes that has a device for each |
| StageSearch.ConfiguredStages | src/graph/DPStaging.cpp:283-294 | a configured number of stages is covered, as far as there are layers for it, on every number of nodes of which one less is too small for it |
| StageSearch.CollectedIsSound | src/graph/DPStaging.cpp:278-325 | every solution collected is a plan at its own numbers, with a permitted number of micro-batches and no more devices than there are; with a configured number of stages it has that many, or one for each layer |
| StageSearch.PickBest | src/graph/DPStaging.cpp:331-340 | the first solution with the least estimate |
| StageSearch.RunDpComm | src/graph/DPStaging.cpp:239-364 | the solutions are those of the search over nodes, and the chosen one is sound and the first with the least estimate |
| Estimate.EstimateBlocks | src/graph/ProfiledWeightDecomposer.cpp:234-250 | the loops compute the sum over time steps of the slowest busy stage |
| Estimate.StepIs | src/graph/ProfiledWeightDecomposer.cpp:234-250 | a time step takes no less than any stage that is busy in it, and is zero or takes what one such stage takes; a stage is busy from the step at which the first micro-batch reaches it until the last has left it |
| Estimate.OneMicroBatch | src/graph/ProfiledWeightDecomposer.cpp:234-250 | with one micro-batch the estimate is the sum over the stages |
| Estimate.WindowedBounds | src/graph/ProfiledWeightDecomposer.cpp:234-250 | it lies between one pass plus the slowest stage for each further micro-batch, and the slowest stage at every step |
| Estimate.EqualStages | src/graph/ProfiledWeightDecomposer.cpp:234-250 | both bounds are met when all stages take the same time |
| Estimate.EstimateTime | src/graph/DPStaging.cpp:190-236 | forward and backward are windowed separately, and the slowest all-reduce is added |
| Estimate.EstimateTimeBounds | src/graph/DPStaging.cpp:196-235 | the bounds for forward and backward together |
| Allocation.Gcd | src/Common.h:360-370 | the result divides both numbers, and every common divisor divides it |
| Allocation.GcdAll | src/Common.h:372-382 | the same for a vector |
| Allocation.OwnedSize | src/graph/Decomposition.cpp:1087-1094 | after k rounds a stage has k times its share |
| Allocation.SearchAllocationFlat | src/graph/Decomposition.cpp:1079-1098 | each stage gets exactly its replica number of devices, no device goes to two stages, together they are 0..sum-1, and device d belongs to the stage in whose share d modulo the sum of the shares lies, the shares being the replica numbers divided by their greatest common divisor |
| Allocation.AllocateSolution | src/graph/DPStaging.cpp:641-641 | any sound solution can be allocated, and no device number reaches the device total |
| Deployment.CreatePartition | src/graph/MLPartDecomposer.cpp:11-84 | fails exactly when no stage produces some network output |
| Deployment.CreateDeployment | src/graph/Decomposition.cpp:461-572 | fails exactly when a connected value is neither batch nor loss; every route of a batch value is a redistribution, every other forward route a broadcast and every other backward route a weighted reduce |
| Deployment.VerifyDeployment | src/graph/Decomposition.cpp:1317-1394 | accepts exactly when every stage is verified |
| Routing.PartitionCount | src/graph/MLPartDecomposer.cpp:41-73 | a value is brought to a stage once if the stage reads it and can be given it, and otherwise not at all |
| Routing.PartitionConnects | src/graph/MLPartDecomposer.cpp:41-81 | a connection enters a stage from where its value comes, or leaves the network |
| Routing.PartitionTakes | src/graph/MLPartDecomposer.cpp:41-81 | an output of a stage has a connection if and only if the network or another stage takes it |
| Routing.OneRoutePerInput | src/graph/Decomposition.cpp:476-508 | a stage input has exactly one forward route if the stage can be given it, and none otherwise |
| Routing.DeployedBackward | src/graph/Decomposition.cpp:510-534 | backward routes are the reversals of the forward routes that carry gradients, in order, with in and out exchanged |
| Routing.StageVerifiedIff | src/graph/Decomposition.cpp:1317-1394 | a stage is verified if and only if everything it reads can be given to it and everything it outputs is taken |
| Routing.BuildDeployment | src/comp/RaNNCModule.cpp:326-359 | partition, deployment and check together succeed if and only if outputs are produced, values can be routed and every stage is served |
| StagedRun.RunStages | src/comp/Validator.cpp:157-182 | run in a topological order with inputs only from routes, the stages give exactly the outputs of the uncut network |
| ParamSegments.SegmentsTile | src/comp/DistributedParamLocatorBase.cpp:12-24 | every element lies in exactly one segment, and nothing else lies in any |
| ParamSegments.SegmentFacts | src/comp/DistributedParamLocatorBase.cpp:12-13 | the segment size is the least with which one segment for each rank holds the parameter |
| ParamSegments.LayOut | src/comp/DistributedParamLocatorBase.cpp:14-21 | the loop appends the layout to whatever is there |
| ParamSegments.GatheredIsParam | src/comp/DistributedParamLocator.cpp:24-65 | the zero-padded parts in rank order, cut to length, are the parameter |
| ParamSegments.Locator.DoRegister | src/comp/DistributedParamLocatorBase.cpp:12-40 | appends the layout of the parameter to those of all lengths registered under the id before, and sets the segment size |
| ParamSegments.Locator.Remove | src/comp/DistributedParamLocator.cpp:101-104 | forgets the parameter and its part, and keeps its layout |
| ParamSegments.EntryAt | src/comp/DistributedParamLocatorBase.cpp:15-21 | an entry of an id's layout belongs to one segment of one of the parameters registered under it |
| ParamSegments.Locator.GetSegmentRange | src/comp/DistributedParamLocatorBase.cpp:55-64 | the range lies inside the parameter registered at that turn, holds exactly the elements of that segment, and ends where the next segment begins |
| ParamSegments.Locator.OwnRange | src/comp/DistributedParamLocatorBase.cpp:66-69 | a rank is given its segment of what was registered first under the id |
| ParamSegments.SameSegmentsIff | src/comp/DistributedParamLocatorBase.cpp:55-64 | that is on all ranks the segment of a later parameter if and only if both have the same length |
| ParamSegments.StaleRange | src/comp/DistributedParamLocatorBase.cpp:42-48 | four elements registered, removed and replaced by eight: the first of two ranks is still given two |
| ParamSegments.Locator.Store | src/comp/DistributedParamLocator.cpp:15-38 | passes its assertion if and only if the id was never registered, and then keeps this rank's part |
| ParamSegments.Locator.Load | src/comp/DistributedParamLocator.cpp:40-70 | concatenates the parts and cuts them to length |
| ParamSegments.StoreAgainFails | src/comp/DistributedParamLocatorBase.cpp:42-48 | storing, removing and storing again fails, whatever the parameters |
| ParamSegments.StoreAndLoad | src/comp/DistributedParamLocator.cpp:15-70 | when every rank stores a parameter under a new id, any rank loads it unchanged |

## Left out

- MPI, NCCL, CUDA and Python bindings: a transfer is a rendezvous, an all-gather is concatenation.
- Tensor arithmetic, automatic differentiation, gradient scaling, and the broadcast and weighted reduce of a loss.
- Profiling: every measured time, size or memory figure is an arbitrary function, fixed during one run.
- Tracing, configuration, logging, serialisation and the saving of deployments.
- Several stages on one rank group: the pipeline assumes one stage for each group, as the flat allocation gives it.
- The batch size that a delayed send is sized with: it is that of the current split; payloads are opaque in the pipeline.
- The gathering of network inputs and outputs by the launcher; the network inputs of a split are given to the stages that read them.
- Uncoarsening, the balancing of blocks by scale factors, manual partitioning and the simple allocation.
- Topological sorting by the graph library: a graph order is any order that satisfies its definition.
- Iteration over hash sets and maps: the model uses list order (stage order for the connections of one network input, the given order of stages in the allocation).
- Ceilings and quotients computed in double precision: the model takes them exactly, which they are for sizes below 2^50.
- Overflow of 64-bit integers, and the conversion of a negative memory figure to an unsigned number.
- Optimality of the dynamic program: communication counts in the value of a step but not in the times it is compared with later.
- Acyclicity of a coarsened level: convexity is decided pair by pair on the level below.
- Type details of nodes and values other than the flags that the passes read; node ids matter only where unused nodes are removed.
- The nested sub-edges of merged nodes and their sizes, which only uncoarsening reads.
- Parameters kept by a part of the ranks only: a locator's ids are registered over all ranks.
- PlannedPipeline.PlannedPipelineComputesNetwork: takes it that merging loses no output of a node; nodes with one output each are such a case.
- CloneInputs.ClonePreserves: takes it that clone names are used nowhere in the graph; the source does not check this.
- MergeCache.GraphMergeHelper.Merge: ids of layers, merged ranges and generated names are taken never to be equal.
- Staging.DoRunDpComm: solutions list devices by stage position; the source keys replica numbers by graph name.
- StageSearch.RunDpComm: the largest all-reduce time kept in the table is never read and is not modelled.
- Coarsening.MergeSmall: evaluations are below the largest integer, as the source takes for granted when it picks the smallest node.
- Staging.Roomy: the sufficient condition for success asks that every stage fits; the prunings across boundaries may miss plans otherwise.
