# Fingerprinting experiments: a verified model

A Dafny model of the stateful and arithmetic parts of a system that trains
models by federated averaging, captures the network traffic of the training and
classifies it. `dafny verify dfyconfig.toml` checks all of it. The parts, and
the files that hold them:

- **Federated averaging.** `FedAvg.dfy` is the averaging arithmetic over exact
  reals. `Coordinator.dfy` is the server's monitor, a class with one method per
  critical section. `Protocol.dfy` composes it with n clients that download,
  train, upload and wait; every interleaving and every spurious wakeup is a run.
  `Liveness.dfy` proves what whole runs keep and that they end, and
  `RoundAverages.dfy` what every round averages, in terms of the uploads.
- **Live monitor.** `LiveWindows.dfy` (multi-scale windows over a pruned packet
  deque) and `WindowContents.dfy` (what each window holds), `LiveGate.dfy` (the stability gate with its bounded history),
  `LiveRegistration.dfy` (reader and registration threads sharing the pending
  buffers) and `TraceOrder.dfy` (aliases, and the order within a trace).
- **Data for the clients.** `DataPartition.dfy` and `PartitionTiling.dfy` (IID
  and Dirichlet splits), `DatasetManager.dfy` (calibration holdout and client
  shares), `SampleCursor.dfy` (the reshuffling cursor over an array).
- **Packet evaluation.** `StreamingSampler.dfy`, `TrainingWeights.dfy`,
  `FisherScores.dfy`, `FisherRanking.dfy`, `Dealing.dfy`, `Folds.dfy`, `StageEvaluation.dfy`,
  `PacketUnits.dfy`, `Strata.dfy`, `AtomicSampler.dfy`, `AtomicWriter.dfy`.
- **The rest.** `ConnectionChoice.dfy`, `Stitching.dfy` and `CanonicalTrace.dfy`
  (canonical proxy traces), `Offload.dfy` (interface offloads), `Apportionment.dfy` (copies by
  largest remainder), `Framing.dfy` (frames on a byte stream) and `ArrayLists.dfy`
  (array archives).
- `Common.dfy`, `Sums.dfy`, `Sorting.dfy`, `Division.dfy`, `Rounding.dfy` and
  `Decimals.dfy` hold the shared vocabulary; `Randomness.dfy` is a seeded
  generator whose permutations, numbers and splits are arbitrary but fixed by the
  seed.

Code that updates state is a method over arrays, fields or local variables,
proved against a function or a relation on values; the laws are lemmas about
that function. Arithmetic is over exact reals and unbounded integers.

## What does not hold

The code meets these expectations only under a condition. Each condition is
proved to be exact, unless the item says otherwise.

- The average stays in the range of the clients' values, for all updates of given
  element types of a tensor, if and only if the first type covers the others, in
  the order boolean, integer, real (`FedAvg.InRangeExactly`); otherwise rounding,
  or taking everything but zero for true, can leave it (`FedAvg.MixedTypesEscape`).
- The average does not depend on arrival order if and only if the updates agree
  on their element types; the first update to arrive decides the type of the
  result (`FedAvg.ArrivalOrderMatters`).
- A waiting client returns r+1, and training ends, if and only if no round is
  completed by updates that differ in their number of tensors or in a shape
  (`Liveness.RunStuckExactly`, `Liveness.TrainingFinishes`). After one is, the
  round is full but never advances: a waiting client can return with an unchanged
  round, and no client finishes (`Protocol.SpuriousWakeup`,
  `Liveness.StuckForever`; `Liveness.DisagreeingRun` gets there).
- Live traces stay in reader order, whatever the packets and their timing, if and
  only if no two registrations get one alias (`TraceOrder.ReaderOrderIffUnshared`).
  Two automatic aliases never coincide, but an explicit one can take the name of
  an automatic one (`TraceOrder.AliasesSharedExactly`,
  `TraceOrder.AutomaticNameTaken`).
- No partition is empty if and only if there are at least as many samples as
  clients (`PartitionTiling.DirichletPartitionsTile`,
  `DatasetManager.ClientsAndHoldoutTile`).
- The search for a normal sample raises if and only if no usable index is normal
  (`SampleCursor.SearchSucceedsIffSomeNormal`).
- Streaming is direct selection if and only if both passes take the same rows for
  every trace (`StreamingSampler.DirectExactly`); when the same rows are read again
  and can be told apart, that is if and only if each keeps its key
  (`StreamingSampler.DirectIffKeysKept`). The first pass reads keys as
  text and the second infers types, so that a client named 007 can be lost
  (`StreamingSampler.RespelledTraceIsLost`).
- The folds are valid if and only if each experiment has one label and
  2 <= n_splits <= the smallest class (`Folds.ExperimentStratifiedSplits`); the
  comment in the code leaves out the lower bound, but one split trains on
  nothing, and a class smaller than the number of folds is missing from one.
- A row has exactly 20 copies, however ties fall, if and only if every negative
  part of its target is within one copy of zero, and the classes that can be
  listed before it are fewer than the copies left over
  (`Apportionment.TwentyCopiesExactly`). An alpha between 0 and 1 leaves no
  negative part (`Apportionment.WithinOneNoneNegative`); the command line accepts
  others (`Apportionment.AlphaTwo`).
- Packet indices are distinct if and only if a client has at most 100 connections
  and a file at most ten million rows, a thousand million if there is one
  connection (`Stitching.InjectiveExactly`). The order of
  the files does not show if and only if no two different packets tie in time and
  index (`Stitching.EntryOrderInvisibleIffNoTies`); two files of one chunk and
  connection can tie (`Stitching.SharedIndexOrderMatters`).
- A frame is received if and only if its header and payload are within the
  receiver's limits, which the sender does not check
  (`Framing.RecoveredIffWithinLimits`).

## Model

| member | source | states |
|---|---|---|
| FedAvg.FedAvg | ai_fingerprint/federated.py:21-65 | the nested loops, with their in-place accumulator, return the weighted mean of every tensor, or the exception for the first reason that applies |
| FedAvg.AverageTensor | ai_fingerprint/federated.py:38-63 | one tensor: the mean over all updates, converted to the first update's type: rounded half to even for an integer type, true unless zero for a boolean one |
| FedAvg.Accumulate | ai_fingerprint/federated.py:42-54 | the accumulator ends as the weighted sum over all updates; or it is reported that some update has another shape, which decides the exception |
| FedAvg.AggregateSucceeds | ai_fingerprint/federated.py:21-65 | it returns normally if and only if there is an update and all agree on the number of tensors and on every shape, and then keeps the shapes |
| FedAvg.AggregateWithin | ai_fingerprint/federated.py:38-63 | every element of a tensor whose first type covers the others' (boolean below integer below real) lies between any bounds of the clients' values; the other tensors do not matter |
| FedAvg.MixedTypesEscape | ai_fingerprint/federated.py:56-63 | for every list of element types whose first does not cover another, updates whose converted mean leaves the range of their values |
| FedAvg.InRangeExactly | ai_fingerprint/federated.py:38-63 | for a list of element types of a tensor: all updates of these types average within their range if and only if the first type covers every other |
| Rounding.RintExactly | ai_fingerprint/federated.py:58-59 | rounding gives the nearest integer, the even one of two |
| FedAvg.AggregateOfEqualUpdates | ai_fingerprint/federated.py:21-65 | equal uploads come back unchanged |
| FedAvg.ArrivalOrderIrrelevant | ai_fingerprint/federated.py:21-65 | permuting updates whose element types agree changes neither the result nor the exception |
| FedAvg.ArrivalOrderMatters | ai_fingerprint/federated.py:56-63 | order independence holds if and only if the element types agree, because the first update decides the type of the result |
| Coordinator.SynchronousFedAvgCoordinator.SubmitArrive | ai_fingerprint/federated.py:121-191 | one critical section: refuse a stale round or a duplicate, store, and let the last arrival average and advance; a failed average leaves parameters and round as they were |
| Coordinator.SynchronousFedAvgCoordinator.SubmitWake | ai_fingerprint/federated.py:184-191 | one wakeup: wait on while the round is open and incomplete, otherwise return the current round |
| RoundAverages.EntriesAreUploads | ai_fingerprint/federated.py:121-150 | in every run the entries of a round are exactly the accepted uploads for it, in order, each with its parameters as they are and max(1, its number of examples) |
| RoundAverages.RoundIsAverage | ai_fingerprint/federated.py:42-63 | in every run the parameters of round r+1 are the average of the uploads for round r, one per client: an element times the sum of max(1, n_i) is the sum of max(1, n_i) times x_i; for integers the nearest to the quotient, halves to even; the first to arrive decides the type |
| RoundAverages.ThreeToOne | ai_fingerprint/federated.py:28-65 | 0 with one example and 4 with three examples average to 3 |
| Protocol.HolderIsCurrent | ai_fingerprint/client.py:573-614 | under every interleaving, a client that holds round r finds the server at r when it submits; it is refused only after an average has failed |
| Protocol.ReleasedReturnsNextRound | ai_fingerprint/federated.py:181-191 | a released submitter returns exactly r+1, however late it wakes |
| Protocol.SpuriousWakeup | ai_fingerprint/federated.py:184-191 | an unnotified wakeup changes nothing; only after a failed average does it return, with the round unchanged |
| Protocol.CompleteHasEveryone | ai_fingerprint/federated.py:140-160 | as many distinct submitters as clients means everyone has submitted |
| Protocol.StepKeepsInv | ai_fingerprint/federated.py:108-191 | every step of every client keeps the invariant of server and program counters |
| Protocol.RunKeepsInv | ai_fingerprint/client.py:573-614 | the invariant holds throughout every run: the round never passes the last one and every finished round holds one update per client |
| Liveness.RunKeepsHistory | ai_fingerprint/federated.py:121-191 | later states keep every round that earlier states completed |
| Liveness.SameRoundSameParameters | ai_fingerprint/federated.py:108-119 | all clients that ever train for a round start from the same parameters: the initial ones, or the average of the round before |
| Liveness.StepDecreases | ai_fingerprint/federated.py:121-191 | every step is a spurious wakeup without effect or decreases the measure |
| Liveness.RunsAreBounded | ai_fingerprint/federated.py:121-191 | in every run at most 3*n*rounds + 5*n steps change the state |
| Liveness.NoDeadlock | ai_fingerprint/federated.py:121-191 | until every client is done, some client has a step that needs no spurious wakeup, unless an average has failed |
| Liveness.FinishedMeansComplete | ai_fingerprint/client.py:573-614 | when every client is done, every round 0..rounds-1 holds exactly one update per client |
| Liveness.StepKeepsShapes | ai_fingerprint/federated.py:157-180 | while local training keeps shapes, no average fails |
| Liveness.ShapeKeepingRunsAgree | ai_fingerprint/client.py:573-614 | in a run whose local training keeps shapes the updates of every round agree |
| Liveness.TrainingFinishes | ai_fingerprint/client.py:573-614 | training in which the updates of every round agree has finished, with one update per client in every round, or can take a real step |
| Liveness.StuckExactlyByDisagreement | ai_fingerprint/federated.py:152-182 | a step gets the system stuck if and only if it uploads the last update of a round whose updates differ in their number of tensors or in some shape |
| Liveness.RunStuckExactly | ai_fingerprint/federated.py:152-182 | a run is stuck if and only if an earlier step completed a round whose updates disagree |
| Liveness.DisagreeingRun | ai_fingerprint/federated.py:152-191 | a run of two clients that gets stuck: one upload has a tensor, the other none |
| Liveness.StuckForever | ai_fingerprint/federated.py:157-180 | after a failed average the server never changes again and nobody finishes |
| Liveness.RestIsFinishedIffNotStuck | ai_fingerprint/federated.py:121-191 | a system that no step changes has finished if and only if no average failed |
| LiveWindows.TraceState.EmitScale | ai_fingerprint/live_inference.py:576-598 | the inner loop emits every ended window of one scale, in order, and terminates because the scale is positive |
| LiveWindows.TraceState.DropOlderThan | ai_fingerprint/live_inference.py:600-611 | the popleft loop drops the packets in front that are older than the earliest needed time |
| LiveWindows.TraceState.EmitDueWindows | ai_fingerprint/live_inference.py:575-611 | one trace at one tick: what is emitted, the new counters, the pruned history |
| LiveWindows.WindowEnded | ai_fingerprint/live_inference.py:577-581 | a window has ended exactly when its index is below floor((now-first)/s) |
| LiveWindows.PrunedWindow | ai_fingerprint/live_inference.py:600-611 | a window that is still to come holds the same packets before and after pruning |
| LiveWindows.PruningIsInvisible | ai_fingerprint/live_inference.py:573-611 | invariant of every run of appends in any timestamp order and ticks: emitted windows are those of the unpruned history, and what is retained is all that is still needed |
| LiveWindows.EmittedAsExpected | ai_fingerprint/live_inference.py:573-611 | the pruning monitor emits what the unpruned reference emits; each counter is the maximum over the ticks of the number of ended windows |
| LiveWindows.IndicesOnceEach | ai_fingerprint/live_inference.py:573-611 | each scale emits the indices 0, 1, 2, ... once each |
| WindowContents.WindowHolds | ai_fingerprint/live_inference.py:583-598 | every window that a tick emits holds exactly the packets that arrived before the tick with a time in [first + i*s, first + (i+1)*s), as often and in the order they arrived |
| WindowContents.EmittedAtFirstTick | ai_fingerprint/live_inference.py:576-598 | window i of a scale is emitted at the first tick that is not before first + (i+1)*s, and at no other |
| WindowContents.OldestIsNeeded | ai_fingerprint/live_inference.py:600-611 | after a tick the oldest packet kept is not older than the start of some scale's next window |
| LiveGate.StabilityGate.ClearStability | ai_fingerprint/live_inference.py:686-695 | one key's history is emptied and its first time kept |
| LiveGate.StabilityGate.Observe | ai_fingerprint/live_inference.py:708-737 | one level of one prediction: rejected clears, accepted extends and may record the time |
| LiveGate.StabilityGate.EmitPrediction | ai_fingerprint/live_inference.py:697-737 | all four levels; other keys are untouched |
| LiveGate.HistoryIsRecentPast | ai_fingerprint/live_inference.py:712-728 | the bounded history is the labels of the last min(bound, streak) events |
| LiveGate.StableExactlyWhenAgreed | ai_fingerprint/live_inference.py:712-737 | stable if and only if the last stable_windows events were all accepted with one label; the history never exceeds that bound |
| LiveGate.FirstStableTime | ai_fingerprint/live_inference.py:728-737 | the recorded time is that of the earliest agreement, recorded if there is one and never overwritten |
| LiveGate.Replay | ai_fingerprint/live_inference.py:656-737 | after any list of events every key's state is what its own past determines, low-packet windows counting as rejections |
| LiveGate.StableExactly | ai_fingerprint/live_inference.py:697-737 | after any events a key is stable if and only if the last stable_windows events of its trace, mode and scale all predict one nonempty label at its level with at least the threshold of confidence; the recorded time is that of the first event after which it was so |
| LiveRegistration.LiveMonitor.DepositPacket | ai_fingerprint/live_inference.py:555-565 | the reader's second locked step: append, create the trace, or buffer with eviction |
| LiveRegistration.LiveMonitor.RegisterConnection | ai_fingerprint/live_inference.py:431-458 | registration: alias, and the pending packets released to the trace in order |
| LiveRegistration.NoPacketLostOrDuplicated | ai_fingerprint/live_inference.py:431-565 | under every interleaving each packet is in exactly one of trace, pending buffer, evicted or in flight, and all of these are in reader order |
| LiveRegistration.PendingIsMostRecent | ai_fingerprint/live_inference.py:556-563 | before registration the buffer holds exactly the most recent 256 packets that the reader has stored |
| LiveRegistration.OwnedTraceInReaderOrder | ai_fingerprint/live_inference.py:431-565 | a trace whose alias belongs to one connection is in reader order up to the one packet that registration overtook, and at most one packet stays pending |
| LiveRegistration.SharedAliasBreaksOrder | ai_fingerprint/live_inference.py:431-458 | a concrete run in which a trace shared by two connections is out of reader order |
| TraceOrder.AliasesSharedExactly | ai_fingerprint/live_inference.py:443-448 | in every run: two automatic connections never share an alias; an automatic and an explicit one if and only if the text is the automatic one's number; two explicit ones if and only if their texts are equal |
| Decimals.ThreeDigitsForm | ai_fingerprint/live_inference.py:443-448 | the number of an automatic alias has three digits, or more without a leading zero |
| TraceOrder.AliasesAre | ai_fingerprint/live_inference.py:443-448 | the registrations of a run, in order, determine every alias |
| TraceOrder.AutomaticNameTaken | ai_fingerprint/live_inference.py:443-448 | an explicit alias that equals the next automatic one |
| TraceOrder.ReaderOrderIffUnshared | ai_fingerprint/live_inference.py:431-565 | for every list of registrations: all runs with them keep every trace in reader order if and only if no two of them get one alias |
| DataPartition.IidPartitionsTile | ai_fingerprint/data_partition.py:132-136 | the parts, one after the other, are the shuffled indices, and the first n % k parts of k hold one more than the others |
| DataPartition.ComputeDirichletPartitions | ai_fingerprint/data_partition.py:139-186 | the loops over classes, clients and empty buckets compute the specified buckets |
| DataPartition.RepairEmpty | ai_fingerprint/data_partition.py:171-179 | the repair loop, with its append and pop |
| PartitionTiling.DealClassesHeld | ai_fingerprint/data_partition.py:154-169 | after n classes the buckets hold exactly the samples of those classes |
| PartitionTiling.DealtOfClass | ai_fingerprint/data_partition.py:154-169 | of every class client i gets the next counts[i] of the shuffled samples, after those of the clients before it |
| PartitionTiling.RepairMovesOne | ai_fingerprint/data_partition.py:171-179 | a repaired client ends with exactly one sample, and every other only loses some |
| PartitionTiling.PartsFromDealt | ai_fingerprint/data_partition.py:171-186 | with fewer samples than clients everyone keeps what was dealt; with enough, who was dealt nothing gets one sample and the others only give away |
| PartitionTiling.RepairHeld | ai_fingerprint/data_partition.py:171-179 | repair preserves the multiset of indices |
| PartitionTiling.DonorHasTwo | ai_fingerprint/data_partition.py:173-177 | with at least as many samples as clients the break is never taken |
| PartitionTiling.RepairFills | ai_fingerprint/data_partition.py:171-179 | repair fills every empty bucket and empties no other |
| PartitionTiling.DirichletPartitionsTile | ai_fingerprint/data_partition.py:139-186 | every index exactly once; no bucket empty if and only if there are at least as many samples as clients |
| PartitionTiling.MakePartitionAssignment | ai_fingerprint/data_partition.py:189-240 | the checks in their order, then the client's own part |
| PartitionTiling.PartitionsTile | ai_fingerprint/data_partition.py:189-240 | either kind of split tiles the samples, and is nowhere empty if and only if there are enough of them |
| DatasetManager.ClientsAndHoldoutTile | ai_fingerprint/dataset_manager.py:861-966 | with one shared seed the clients' sets and the calibration holdout hold every sample to be distributed once and nothing else: the normal ones, with an ascending holdout of n * fraction of them, rounded to the nearest, halves to even, and kept in 1..n-1, for an anomaly detector, otherwise all without a holdout; no client is left without samples if and only if there are enough of them |
| DatasetManager.ExactlyOneHolder | ai_fingerprint/dataset_manager.py:861-966 | a sample to be distributed is in the holdout or with exactly one client, never both; any other is nowhere |
| DatasetManager.CalibrationIsShare | ai_fingerprint/dataset_manager.py:906-907 | the size of the holdout is n * fraction rounded to the nearest, halves to even, but at least one and at most n - 1 |
| DatasetManager.UndividedTile | ai_fingerprint/dataset_manager.py:905-932 | without a federated client the indices and the holdout together are all samples |
| DatasetManager.BuildFails | ai_fingerprint/dataset_manager.py:861-966 | which exception is raised, exactly when |
| DatasetManager.SharesTile | ai_fingerprint/dataset_manager.py:913-966 | the shares of all clients tile what they divide |
| SampleCursor.DatasetManager.NextIndex | ai_fingerprint/dataset_manager.py:1122-1141 | advance, and reshuffle the usable prefix in place when it is used up; an exception when there is nothing usable, another when max_samples is negative |
| SampleCursor.DatasetManager.ShufflePrefix | ai_fingerprint/dataset_manager.py:1134-1137 | the array's prefix is permuted through the view, the rest untouched |
| SampleCursor.DatasetManager.NextIndexForAnomaly | ai_fingerprint/dataset_manager.py:1161-1174 | the bounded search: the first accepted draw or the exception, with the two exceptions of the cursor |
| SampleCursor.EpochFromBoundary | ai_fingerprint/dataset_manager.py:1129-1141 | an epoch draws every usable index once, in order or in the order of the next shuffle, and ends ready for the next with the same indices |
| SampleCursor.EveryEpochIsAPermutation | ai_fingerprint/dataset_manager.py:1129-1141 | so does every epoch of any walk, through all reshuffles |
| SampleCursor.EpochWithinTwo | ai_fingerprint/dataset_manager.py:1161-1174 | from any position, 2*usable draws contain a whole epoch |
| SampleCursor.SearchFindsFirst | ai_fingerprint/dataset_manager.py:1161-1174 | the search returns the first of its draws that is accepted and stops there |
| SampleCursor.AnySampleIsNext | ai_fingerprint/dataset_manager.py:1161-1170 | unless only normal samples are asked for, it takes the next index |
| SampleCursor.SearchSucceedsIffSomeNormal | ai_fingerprint/dataset_manager.py:1161-1174 | the search for a normal sample succeeds, from any position, if and only if some usable index is normal |
| StreamingSampler.CountTraceRows | train_packet_cross_vantage.py:260-288 | the first pass counts the rows of every trace, for every chunk size |
| StreamingSampler.SampleBudgetStreaming | train_packet_cross_vantage.py:291-393 | for every chunk size, interleaving and second reading of the keys: which rows of each trace are selected and counted; refused if and only if the file is empty or nothing is selected |
| StreamingSampler.DirectExactly | train_packet_cross_vantage.py:260-365 | whatever the chosen positions, the result is direct selection if and only if both passes take the same rows for every trace |
| StreamingSampler.DirectIffKeysKept | train_packet_cross_vantage.py:260-365 | when the second pass reads the same distinguishable rows, it selects directly if and only if every row keeps its key |
| StreamingSampler.RespelledTraceIsLost | train_packet_cross_vantage.py:324-339 | a client named 007, which the second pass reads as the number 7, loses its rows |
| StreamingSampler.SelectGroup | train_packet_cross_vantage.py:337-365 | one group of one chunk picks the trace's chosen rows that fall into it |
| TrainingWeights.ExperimentTraceWeights | train_packet_cross_vantage.py:709-814 | both loops compute the weight of every row; columns of different lengths are refused and the check of the mean never fails |
| TrainingWeights.EqualShares | train_packet_cross_vantage.py:709-814 | mean one; every experiment has the same total, and every trace an equal part of its experiment |
| TrainingWeights.WeightsArePositive | train_packet_cross_vantage.py:770-814 | every row's weight is positive |
| FisherScores.WeightedFisherScores | train_packet_cross_vantage.py:817-964 | the score of every column from the class loop, zero with fewer than two classes, sorted; refused exactly for a wrong width, a wrong number of weights, a negative weight, or no positive total |
| FisherScores.RankingIsStable | train_packet_cross_vantage.py:948-964 | the ranking lists every column once, best first, equal scores in the order of the columns |
| FisherScores.FisherDecomposition | train_packet_cross_vantage.py:871-939 | between-class plus within-class sum is the total weighted scatter about the overall mean |
| FisherScores.ClassScatter | train_packet_cross_vantage.py:893-939 | one class: its scatter about any centre splits into its two contributions |
| FisherRanking.ScoreLaw | train_packet_cross_vantage.py:871-947 | a column's score times max(W, 1e-12) is B: B sums the weighted squared distances of the class means from the overall mean, W those of the rows from their class means; zero with one class |
| FisherRanking.RankingLaw | train_packet_cross_vantage.py:948-964 | the ranking lists every column once with its score, best first |
| FisherRanking.LargerFirst | train_packet_cross_vantage.py:941-947 | no score is negative; at equal W the larger B has the larger score |
| FisherRanking.EqualMeansScoreZero | train_packet_cross_vantage.py:921-947 | a column whose class means coincide scores zero |
| ClassSums.SumByClasses | train_packet_cross_vantage.py:880-937 | a sum over all rows is the sum over the classes of the sums over each class |
| Dealing.MakeTestFolds | train_packet_cross_vantage.py:449-464 | every fold ends with the experiments dealt to it class by class, from a random start, in turn; with no fold the first class raises |
| Dealing.DealtInTurn | train_packet_cross_vantage.py:449-464 | experiment i of class c is tested by fold (start + i) mod n, and a fold tests nothing else |
| Dealing.ShareSize | train_packet_cross_vantage.py:459-462 | dealing m experiments over n folds gives each fold m/n of them, one more for the first m%n |
| Folds.GroupLabels | generate_oof_fingerprinting_results.py:328-337 | the labels of each experiment |
| Folds.FileByClass | generate_oof_fingerprinting_results.py:339-342 | the experiments of each class, in order |
| Folds.ExperimentStratifiedSplits | generate_oof_fingerprinting_results.py:314-375 | the folds that are yielded, and which exception is raised after them, exactly when: several labels for an experiment; no fold; a fold that lacks a class. None if and only if 2 <= n_splits <= the smallest class (or there are no rows); leakage never |
| Folds.CoverageCheck | generate_oof_fingerprinting_results.py:351-373 | the check of a fold passes exactly when every class has an experiment inside and one outside; the two sides never share an experiment |
| Folds.FoldsCover | generate_oof_fingerprinting_results.py:339-373 | every fold covers every class on both sides if and only if 2 <= n_splits <= the smallest class |
| Folds.FoldIsSound | generate_oof_fingerprinting_results.py:351-375 | every class on both sides, no experiment on both sides, every row on exactly one |
| Folds.TestedOnce | generate_oof_fingerprinting_results.py:339-375 | every row is tested in exactly one fold |
| Folds.FoldsAreBalanced | generate_oof_fingerprinting_results.py:339-350 | per class, two folds differ by at most one experiment |
| StageEvaluation.RecordFolds | generate_oof_fingerprinting_results.py:738-790 | the out-of-fold array, assigned fold by fold |
| StageEvaluation.EligibleExactly | generate_oof_fingerprinting_results.py:638-680 | evaluated are the rows of the classes with two different experiments |
| StageEvaluation.EvaluateStage | generate_oof_fingerprinting_results.py:617-790 | as many folds as the smallest class has experiments, or max_folds if that is less; a stage raises only for an experiment with several labels; otherwise every eligible row is marked with the fold that tests it |
| PacketUnits.IterPacketBudgetSamples | ai_fingerprint/packet_fingerprinting.py:385-410 | the full iterator yields exactly the whole units, for every budget; a budget below one is refused |
| PacketUnits.UnitsAre | ai_fingerprint/packet_fingerprinting.py:385-410 | unit i is packets i*k to i*k+k-1; for k = 1 a packet and the nonnegative time since its predecessor; no whole block is left out |
| Strata.StrataTile | build_packet_cross_vantage_atomic_sampled.py:82-88 | the integer strata are never empty and end at n, so that the hi <= lo branch is dead |
| Strata.StratumExactly | build_packet_cross_vantage_atomic_sampled.py:82-83 | position p lies in stratum i if and only if i*n < (p+1)*cap <= (i+1)*n |
| Strata.StratumOf | build_packet_cross_vantage_atomic_sampled.py:82-90 | every unit lies in exactly one stratum |
| AtomicSampler.StratifiedPositions | build_packet_cross_vantage_atomic_sampled.py:64-91 | the loop computes one position per stratum, or all positions |
| AtomicSampler.SelectedUnitsForBudget | build_packet_cross_vantage_atomic_sampled.py:94-141 | the generator yields the full iterator's units at the chosen positions; the short-block branch is dead |
| AtomicSampler.AllWithinCap | build_packet_cross_vantage_atomic_sampled.py:71-76 | all units when the cap is not exceeded or not positive |
| AtomicSampler.OnePerStratum | build_packet_cross_vantage_atomic_sampled.py:64-141 | otherwise cap units, strictly increasing, one per stratum, each the full iterator's entry with the same bounds and the same predecessor |
| AtomicWriter.AtomicPacketWriter.WriteTrace | build_packet_cross_vantage_atomic_sampled.py:185-288 | a trace adds, for every budget, the rows of its selected units and one audit line; all counters keep describing the rows, and the audit adds up to them |
| AtomicWriter.AuditLines | build_packet_cross_vantage_atomic_sampled.py:185-288 | one audit line per budget that has a whole unit: packets, whole units, and units selected, at most the cap |
| AtomicWriter.AtomicPacketWriter.AuditCountsRows | build_packet_cross_vantage_atomic_sampled.py:185-288 | after any traces the audit lists, per file and role, as many selected units as there are rows |
| AtomicWriter.AtomicPacketWriter.WriteUnits | build_packet_cross_vantage_atomic_sampled.py:234-269 | the row loop: rows, counts, traces and experiments together |
| AtomicWriter.AtomicPacketWriter.Validate | build_packet_cross_vantage_atomic_sampled.py:296-372 | after any sequence of traces the validation finds no problem |
| ConnectionChoice.ChooseConnections | canonicalize_central_proxy.py:234-405 | seeds, connections and reason of every client; raised only for a client without any registration, exactly then |
| ConnectionChoice.SeedConnections | canonicalize_central_proxy.py:256-291 | confirmed connections, or else a registered one with the most packets |
| ConnectionChoice.IpOwners | canonicalize_central_proxy.py:293-307 | the owners of every address |
| ConnectionChoice.DropFragments | canonicalize_central_proxy.py:335-387 | the fragments are dropped; the fallback is never used |
| ConnectionChoice.SomeResolved | canonicalize_central_proxy.py:388-393 | every client with a seed gets a connection |
| ConnectionChoice.DisjointIffSeedsDisjoint | canonicalize_central_proxy.py:298-395 | two clients share a connection if and only if they share a seed |
| ConnectionChoice.OnlyFragmentsDropped | canonicalize_central_proxy.py:330-375 | at a uniquely owned address a seed, or a connection with packets, is kept if and only if it is no fragment |
| ConnectionChoice.ResolvedExactly | canonicalize_central_proxy.py:307-395 | at an address that it alone owns a client gets its seeds and whatever carried packets, if they have 100 packets or a ten-thousandth of every connection there; elsewhere its seeds |
| ConnectionChoice.ReconnectsExactly | canonicalize_central_proxy.py:339-340 | reconnects if and only if two connections carried packets at an address that the client alone owns |
| ConnectionChoice.FragmentsExactly | canonicalize_central_proxy.py:347-374 | fragments removed if and only if one there that carried packets is neither of 100 packets nor of a ten-thousandth |
| ConnectionChoice.LargestKept | canonicalize_central_proxy.py:341-387 | the largest connection of such an address is kept, and no other client gets one there |
| Stitching.InjectiveExactly | canonicalize_central_proxy.py:459-463 | the packet index is injective if and only if there are at most 100 connections and ten million rows (a thousand million with one connection) |
| Stitching.ReadSafeSequence | canonicalize_central_proxy.py:408-521 | the packets of one file |
| Stitching.StitchClient | canonicalize_central_proxy.py:627-681 | extend and sort the packets of a client's files; the two exceptions, exactly when |
| Stitching.Stitched | canonicalize_central_proxy.py:643-674 | the canonical trace is sorted and a permutation of the packets of the client's files |
| CanonicalTrace.TraceHolds | canonicalize_central_proxy.py:459-521 | the trace holds one packet for every row of the client's files and no other: timestamp = base epoch + relative time, index = chunk * 1e9 + connection * 1e7 + row; in order of time, then of index |
| CanonicalTrace.FilesInOrder | canonicalize_central_proxy.py:651-674 | when all times of one file lie before all times of another, all its packets come first |
| Stitching.OrderlyIndices | canonicalize_central_proxy.py:643-667 | one file per chunk and connection, within the bounds: no two packets share an index |
| Stitching.EntryOrderInvisibleIffNoTies | canonicalize_central_proxy.py:651-674 | the canonical trace is the same for every order of the entries if and only if no two different packets tie in time and index |
| Stitching.EntryOrderIrrelevant | canonicalize_central_proxy.py:643-674 | with one file per chunk and connection, within the bounds, the order of the entries does not show |
| Sorting.SortStable | canonicalize_central_proxy.py:669-674 | the sort keeps tied packets in the order they came in |
| Stitching.SharedIndexOrderMatters | canonicalize_central_proxy.py:651-674 | two files of one chunk and connection for which it does |
| Offload.Interface.ReadState | ai_fingerprint/offload.py:74-151 | a read fails or reports every feature as it is |
| Offload.CaptureOffloadManager.RunSetCommand | ai_fingerprint/offload.py:154-255 | direct, then once through sudo when that is allowed and the first was refused; a refused command changes nothing |
| Offload.CaptureOffloadManager.Disable | ai_fingerprint/offload.py:380-417 | only managed features that were on and are not fixed are switched off; what differs afterwards is recorded as changed |
| Offload.CaptureOffloadManager.VerifyDisabled | ai_fingerprint/offload.py:418-456 | capture_safe if and only if the second read succeeds and shows nothing managed on; otherwise everything is put back first |
| Offload.CaptureOffloadManager.Start | ai_fingerprint/offload.py:344-456 | every outcome and status; raised if and only if required and not safe; a second start does nothing; only own features are ever written |
| Offload.CaptureOffloadManager.Restore | ai_fingerprint/offload.py:458-538 | only changed features are written, back on; the interface is as it was when the writes take effect, and the status is exact; a second restore does nothing |
| Offload.CaptureOffloadManager.PutBack | ai_fingerprint/offload.py:483-503 | the write-back loop |
| Offload.Mismatched | ai_fingerprint/offload.py:512-531 | a mismatch is found if and only if a change cannot be read back or is not back |
| Offload.CaptureSession | ai_fingerprint/offload.py:344-538 | start, restore, restore: the interface ends as it was whenever restoring is active and its writes take effect |
| Apportionment.Remainder | run_endpoint_assisted_fingerprinting.py:166-168 | the whole parts leave fewer copies than there are classes, never a negative number, whatever alpha is |
| Apportionment.Exact | run_endpoint_assisted_fingerprinting.py:166-172 | the counts add up to exactly 20 and each is less than one from its quota |
| Apportionment.Monotone | run_endpoint_assisted_fingerprinting.py:166-172 | a strictly likelier class never gets fewer copies, however ties are broken |
| Apportionment.ExtraHasFraction | run_endpoint_assisted_fingerprinting.py:168-172 | only a class with a fractional quota gets a leftover copy |
| Apportionment.TargetIsParts | run_endpoint_assisted_fingerprinting.py:153-166 | the parts of the mixed target add up to one, whatever alpha is |
| Apportionment.OnlyTrueLabel | run_endpoint_assisted_fingerprinting.py:153-172 | alpha = 1 gives all 20 copies to the true label |
| Apportionment.ApportionSample | run_endpoint_assisted_fingerprinting.py:165-172 | one sample: whole parts, then one more for the largest remainders |
| Apportionment.CopiesAreApportioned | run_endpoint_assisted_fingerprinting.py:174-176 | every row is repeated with each label as often as apportioned, and not at all for a negative count |
| Apportionment.CopiesWithoutNegatives | run_endpoint_assisted_fingerprinting.py:166-176 | a row appears at least 20 times, and more often if any of its counts is negative |
| Apportionment.CountsFollowMix | run_endpoint_assisted_fingerprinting.py:160-172 | every count is within one of 20 * (alpha at the true class + (1 - alpha) * the teacher's part) |
| Apportionment.TwentyCopiesExactly | run_endpoint_assisted_fingerprinting.py:165-176 | for a target: a row appears exactly 20 times, however ties fall, if and only if every negative part is within one copy of zero and fewer other classes have at least its fraction than there are copies left over |
| Apportionment.WithinOneNoneNegative | run_endpoint_assisted_fingerprinting.py:153-176 | with alpha between 0 and 1 and no negative teacher part no count is negative, and a row appears exactly 20 times |
| Apportionment.AlphaTwo | run_endpoint_assisted_fingerprinting.py:153-176 | with alpha = 2 and an undecided teacher of two classes a row appears 30 times |
| Apportionment.DistilledTrainingSet | run_endpoint_assisted_fingerprinting.py:144-181 | both lists, extended in lockstep, hold the apportioned copies of every row |
| Framing.NumberOfBigEndian | ai_fingerprint/protocol.py:30-40 | a fixed-width number is read back as it was packed |
| Framing.Socket.RecvExact | ai_fingerprint/protocol.py:16-25 | the next size bytes, however recv splits them, or the closed connection |
| Framing.Socket.SendFrame | ai_fingerprint/protocol.py:28-34 | the bytes of a frame are sent, or packing a length fails |
| Framing.Socket.RecvFrame | ai_fingerprint/protocol.py:37-46 | what the first frame of the stream is, and how much of the stream it takes, or which exception |
| Framing.WireLayout | ai_fingerprint/protocol.py:28-34 | a frame is four bytes of header length, most significant first, the header, eight bytes of payload length, the payload |
| Framing.RecoveredIffWithinLimits | ai_fingerprint/protocol.py:28-46 | a frame is recovered, whatever follows, if and only if header and payload are within the limits |
| Framing.TruncatedFails | ai_fingerprint/protocol.py:16-46 | a frame cut off anywhere is a closed connection, never another frame |
| Framing.FramesRecovered | ai_fingerprint/protocol.py:28-46 | a list of frames is recovered and takes exactly its bytes |
| Framing.TruncatedStream | ai_fingerprint/protocol.py:16-46 | a stream cut off anywhere yields the whole frames before the cut and then fails |
| Framing.SentFramesArrive | ai_fingerprint/protocol.py:16-46 | frames sent before the connection closes all arrive, and one more call fails |
| Framing.ReceiveFrames | ai_fingerprint/protocol.py:37-46 | successive calls on the socket yield what the stream holds |
| ArrayLists.KeyForm | ai_fingerprint/protocol.py:59-68 | the key of array i is arr_ and the decimal numeral of i |
| ArrayLists.RefusedExactly | ai_fingerprint/protocol.py:71-76 | an archive is refused if and only if some key has no number after its last underscore |
| ArrayLists.ArraysComeBackInOrder | ai_fingerprint/protocol.py:59-76 | arrays of a list of any length come back in order, however the archive lists its files |

## Left out

- Floating point: averages, weights, scores, probabilities and times are exact reals; NaN, infinities, overflow and the rounding of `largest * 0.0001` are not modelled.
- Random generators and digests: a seed fixes a table of permutations, numbers and splits, looked up by the number of the call; nothing about their distribution is modelled.
- server.py, proxy.py, traffic/analysis.py, result_collection.py, round_fingerprinting.py and workloads/base.py are not part of this model; a client's request is a direct call on the coordinator, and the workload is an opaque store of parameters that does not change the arrays it is handed.
- The readiness wait of the download request (status waiting), which server.py decides.
- The aggregation callback (it returns normally), the metrics of an update, logging, timing and state files.
- A deployment with an expected number of clients other than the number of clients that take part.
- Tensors of complex, text or object elements, and the width of integer element types.
- NumPy broadcasting: tensors of different shapes make the average fail, as the code's own check does.
- Live monitor: rewriting of packet directions on registration, explicit client registration by address alone, resource sampling, the models behind the predictions.
- Dataset loading, labels of concrete datasets, normalization of the partition name and the assignment's identifier.
- StreamingSampler.SampleBudgetStreaming: the positions come from a chooser that is sorted, without repetition and in range; its floating-point strata are not modelled. How the CSV reader infers types is not either: the second reading of the keys is arbitrary.
- FisherScores.WeightedFisherScores: the class sums run over the classes in order of first appearance instead of by name, which exact sums do not show.
- Folds.ExperimentStratifiedSplits: labels and experiments are numbered in the order of their names.
- Apportionment.DistilledTrainingSet: the softening by temperature, of which only that a teacher's row adds up to one is used; every true label is one of the classes.
- StageEvaluation.EvaluateStage: the classifier, the probabilities and the metrics; only the bookkeeping of classes, folds and out-of-fold marks.
- The CSV files of the sampled builder, staging and promotion of directories; its budgets are positive, as its command line requires.
- ConnectionChoice.ChooseConnections: clients are visited in any order instead of by name, so which client an exception names is not modelled; addresses are already stripped, as the readers of both files do.
- Stitching.StitchClient: fields of a packet other than index, time and connection are one opaque value; window features of the stitched trace are not modelled.
- Offload: names of unknown features, parsing of the tool's output, texts of errors; the features are independent, and nothing else changes the interface during a session.
- Framing: JSON text is a pair of inverse functions; a connection either yields bytes or has been closed, timeouts and resets are not modelled.
- ArrayLists.BytesToArrays: a key whose suffix is not a plain decimal numeral is refused; other spellings that int() accepts do not occur in archives written by arrays_to_bytes.
- scikit-learn and torch models, plotting, command lines, menus, capture subprocesses, static tables and policy digests.
