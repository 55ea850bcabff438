# Verified models of PSRL

PSRL trains language models by reinforcement learning with generation and training decoupled. This
project models the parts of it whose correctness rests on reasoning rather than on one branch, and
proves what they promise, on all inputs and over all runs. `dafny verify dfyconfig.toml` checks it.

## What is modelled

**Staleness control** (`EntryInfo`, `StalenessBuffer`, `StalenessInventory`, `StalenessOccupy`,
`StalenessProtocol`, `StalenessTrajectories`, `StalenessLimits`, `StalenessRuns`, `StalenessHidden`,
`StalenessController`). Versioned buffers hold prompt groups that are reserved when generation starts
and occupied when it ends. `StalenessProtocol.EveryBatchIsFresh`: in every run of reserve, join, retag,
occupy, abort, drop, consume, mark and delete steps, every batch handed to training holds exactly the
batch size of finished groups, none older than the staleness bound by the versions on record. The
centre is `StalenessTrajectories.EveryRunTrainsOnFresh`, which carries each request's own version beside
the inventory: from the empty inventory on, the bound holds for every trajectory in every run in which
retags name a member and no join or retry comes with an older version than the record shows for it. It
also holds when joins are free and retags and partial aborts find a group's versions lined up with its
requests.
`StalenessHidden` has the runs that break the bound without that.
`StalenessController.Controller` is the inventory as the object that updates itself in place, with its
cache of buffers by status; `Perform` and `Occupy` show that the object moves as the protocol does.

**Weight conversion** (`QkvLayout`, `QkvConverters`, `ModelSharding`). Fusing Q, K and V per group is a
bijection of rows, weight and bias get the same one, and the fused linear layer computes that
permutation of the three separate layers. The head-wise form and the vision tower's transposition give
the same layout. Layers and experts are sharded over ranks without loss or overlap.

**Evaluation drivers** (`WorkerQueue`, `ShardedEval`, `Polling`, `Fleet`). The worker pool over every
interleaving; sharding and merging as a refinement of the run on one node; the readiness poll; GPU,
port and address allocation with the quorum rules.

**Sampling and text** (`RoundRobin`, `MarkdownSplit`, `MarkdownRewrite`, `MarkdownSpelling`,
`MarkdownMask`, `BoxedAnswer`, `BatchSpec`). The fair sampler, the documentation rewriter, the
boxed-answer matcher and the batch specification language.

**Small kernels** (`PayloadKeys`, `ChunkSize`, `MemAgent`). Payload keys and their life cycle, chunk-size
resolution, the chunked memory agent.

`Common`, `Division`, `Groups` and `Decimal` hold what these share. `Division.Times(n, w)` is `n * w`,
written as a repeated sum so that sizes of grouped data stay linear arithmetic for the solver.

The environment is arbitrary: job outcomes, completion and iteration orders, process liveness, probe
answers, shuffles, hashes, model responses and character classes are parameters, and the theorems
hold for all of them. Where the source raises, the model returns `Raised` (or says no).

## What the code does not promise

Each of these is a lemma with its exact condition, or, where that is said, a sufficient one.

- The design notes say a group is never occupied later than it was reserved. That holds for slots inside
  the batch (`BatchOccupyNeverLater`). A group reserved in a surplus slot lands in buffer t exactly when
  `Takes` holds, and t may be later; `SurplusMayLandLater` gives a run that gets there.
- Occupying a surplus group can raise although every step so far was legal: the overflow branch asserts
  a position its own candidate filter excludes. `RaiseCondition` says which steps raise, and
  `SurplusMayRaise` gives a run to a state where every iteration order does.
- A bound of buffer 0 is taken for no bound, because zero is falsy (`ReserveAtBoundZero`), so an admitted
  request can fail (`AdmittedMayFail`).
- Joining a group whose members agreed on a version so far writes one version too many
  (`JoinAlignment`). A later retag or partial abort can then drop the version of a member
  (`JoinThenAbort`), and the group is trained on beyond the bound (`RetagMayHide`, `AbortMayHide`).
  `EveryTrajectoryIsFresh` gives two sufficient conditions that a caller can check before the call: on
  joins, that the record will show the request no newer version than its own, or on retags and partial
  aborts, that the versions line up. The one on joins is exact for the record: when it fails, some
  partial abort right after the join leaves a version newer than the survivor's own (`JoinCondition`).
- A retried request keeps its place and the version it arrives with is dropped. The record stays
  truthful exactly when the record shows no newer version (`RetryCovers`); otherwise the group can be
  trained on beyond the bound (`RetryMayHide`).
- Aborting requests clears a group through the path for reservations without asking whether the group
  has finished. Clearing a finished group that way keeps the invariant exactly when it is the last of
  the prefix of an unmarked buffer that is not trained on yet (`ClearOccupiedCondition`);
  `AbortMayLeaveHole` gives a run to a state where it does not.
- `update_request_version_tag` documents a check against the staleness bound that it does not make: the
  bound is kept exactly when the check would pass (`RetagCondition`), and an older tag can break it
  (`RetagMayBreakBound`).
- Aborting requests a group does not list raises when the group's only request is not a list and that one
  is enough (`RaiseCondition`); `AbortMayRaise` gives a run to such a state.
- Prose that contains NUL can look like a placeholder (`FakePlaceholderRaises`); that it contains none is
  sufficient (`TransformProse`).
- The per-layer element count of the DeepSeek converter holds exactly when the expert ranks divide the
  experts (`CountAgrees`); otherwise some experts are copied by nobody (`AllCopied`).
- A task whose job returns no trials is missing from the records (`CompleteRun`).
- A merged run counts a repeated problem once, a run on one node counts it twice: totals agree exactly
  for distinct ids (`TotalCondition`). Hosts whose names differ only in separators overwrite each other
  (`SanitisedEqual`, `SharingLoses`).
- Two batch entries of one request collide only if both or neither have a single trajectory
  (`BatchKeysDistinct`).

## Model

| member | source | states |
|---|---|---|
| EntryInfo.JoinVersion | psrl/workers/ps/staleness_controller.py:613-667 | joining a request to a group leaves the group at the smaller of its recorded version and the request's, whatever mixture of scalars and lists it had |
| EntryInfo.JoinAlignment | psrl/workers/ps/staleness_controller.py:613-667 | after a join instances and trajectories line up with the requests; versions do, and the new request's own version is at its position, exactly when versions were a list already or the new one equals the shared one |
| EntryInfo.RetagVersion | psrl/workers/ps/staleness_controller.py:711-746 | after a retag the group version is at most the tag and at least the older of the tag and the version before, so a bound the group met is met afterwards exactly when the tag meets it; no recorded version becomes newer than both |
| EntryInfo.AbortKeepsVersions | psrl/workers/ps/ps_manager.py:587-655 | in an aligned group every survivor of a partial abort keeps its own version, and the group stays aligned |
| EntryInfo.JoinThenAbort | psrl/workers/ps/ps_manager.py:587-655 | when a request joins and all earlier members are aborted, the group is left with the request's own version exactly when versions were a list already or the new one equalled the shared one |
| EntryInfo.JoinFollows | psrl/workers/ps/staleness_controller.py:613-667 | whatever a join does to the lists, no member's own version is older than the version on record, and versions that line up with the requests are each member's own |
| EntryInfo.JoinCovers | psrl/workers/ps/staleness_controller.py:613-667 | of a group whose record shows every member a version no newer than its own, a join keeps that if and only if the version that will stand at the new request's position is no newer than the one it joins with |
| EntryInfo.RetryCovers | psrl/workers/ps/staleness_controller.py:623-631 | a retry, whose version is dropped, keeps that if and only if the record shows the request no newer version than the one it comes back with |
| EntryInfo.RetagCovers | psrl/workers/ps/staleness_controller.py:711-746 | a retag of a member keeps that for every member, whether or not versions line up with requests |
| EntryInfo.AbortCovers | psrl/workers/ps/ps_manager.py:634-650 | a partial abort keeps that for every survivor, whichever requests go |
| EntryInfo.RetagFollows | psrl/workers/ps/staleness_controller.py:711-746 | a retag of a member keeps that whenever the versions line up with the requests, and they still do |
| EntryInfo.AbortFollows | psrl/workers/ps/ps_manager.py:634-650 | so does a partial abort |
| EntryInfo.JoinCondition | psrl/workers/ps/staleness_controller.py:613-667 | of such a group, after a join every partial abort leaves a version on record that is no newer than any survivor's own if and only if the version that will stand at the new request's position is no newer than its own |
| StalenessBuffer.StatusMeaning | psrl/workers/ps/staleness_controller.py:234-269 | in a well-shaped buffer READY means all batch slots are occupied, capacity means an empty slot, and STUCK means an incomplete batch without one |
| StalenessBuffer.ReserveKeepsShape | psrl/workers/ps/staleness_controller.py:177-217 | reserving before the reserved suffix keeps the occupied prefix and the reserved suffix apart |
| StalenessBuffer.OccupyKeepsShape | psrl/workers/ps/staleness_controller.py:166-217 | occupying the end of the prefix keeps the shape and lengthens the prefix by one |
| StalenessBuffer.RemovalKeepsShape | psrl/workers/ps/staleness_controller.py:946-974 | taking a reservation out and closing its gap keeps the shape and the prefix and leaves room |
| StalenessBuffer.GapKeepsShape | psrl/workers/ps/staleness_controller.py:1049-1055 | leaving a gap keeps the shape when no batch reservation lies before it |
| StalenessBuffer.DropKeepsShape | psrl/workers/ps/staleness_controller.py:877-922 | dropping an occupied entry and moving the last one down keeps the shape and shortens the prefix by one |
| StalenessBuffer.RemovalOfOccupied | psrl/workers/ps/staleness_controller.py:924-1058 | clearing an occupied entry through the reserved path keeps the shape of its buffer exactly when it was the last of the prefix; ClearOccupiedCondition says it for the inventory |
| StalenessInventory.ClearKeepsInv | psrl/workers/ps/staleness_controller.py:924-974 | aborting a reservation keeps the whole invariant and removes that group and no other |
| StalenessOccupy.ReleaseKeepsInv | psrl/workers/ps/staleness_controller.py:975-1058 | releasing a reservation, with an earlier one pulled across buffers into its slot, keeps the whole invariant |
| StalenessOccupy.ReleaseRoom | psrl/workers/ps/staleness_controller.py:975-1058 | a release moves no occupied entry and frees room in exactly one buffer |
| StalenessInventory.ReleaseGroups | psrl/workers/ps/staleness_controller.py:975-1058 | a release removes its group and no other, however entries were exchanged |
| StalenessOccupy.SettleKeepsInv | psrl/workers/ps/staleness_controller.py:1195-1270 | settling a finished group, with a reservation retreating to earlier room if needed, keeps the invariant and changes that group alone |
| StalenessOccupy.BatchOccupyNeverLater | psrl/workers/ps/staleness_controller.py:1103-1194 | a reservation in the batch part can always be occupied, within its staleness window and never in a later buffer than reserved |
| StalenessOccupy.SurplusOccupyCondition | psrl/workers/ps/staleness_controller.py:1195-1298 | a surplus reservation lands in buffer t if and only if t is unfinished, in the window, and there is room in it or unmarked room before it; otherwise the overflow branch raises |
| StalenessProtocol.ReserveAgreesWithCheck | psrl/workers/ps/staleness_controller.py:568-709 | a reservation is granted exactly when the admission check said it would be, and in the latest admissible buffer with room |
| StalenessProtocol.ReserveKeepsInv | psrl/workers/ps/staleness_controller.py:598-709 | reserving for a new prompt keeps the invariant whether or not it is granted |
| StalenessProtocol.ReserveAtBoundZero | psrl/workers/ps/staleness_controller.py:670-709 | with a bound of buffer 0, which is falsy, a reservation is granted when exactly one buffer of the whole inventory has room, in that buffer, and keeps the invariant exactly when it is an unmarked buffer 0; otherwise it fails |
| StalenessProtocol.JoinKeepsInv | psrl/workers/ps/staleness_controller.py:613-667 | joining a tracked group keeps the invariant exactly when the admission check allows it |
| StalenessProtocol.DropKeepsInv | psrl/workers/ps/staleness_controller.py:877-922 | dropping a finished group of an unconsumed buffer keeps the invariant and removes that group alone |
| StalenessProtocol.RetagCondition | psrl/workers/ps/staleness_controller.py:711-746 | a retag to a version the server has keeps the invariant if and only if the group's buffer is within the staleness bound of the tag: the check the operation documents and does not make |
| StalenessProtocol.ClearOccupiedCondition | psrl/workers/ps/staleness_controller.py:924-974 | clearing a finished group through the reserved path keeps the whole invariant if and only if it is the last of the prefix of an unmarked buffer that is not trained on yet |
| StalenessProtocol.ShrinkKeepsInv | psrl/workers/ps/ps_manager.py:634-650 | a partial abort that leaves some request keeps the whole invariant and changes the record of that group alone |
| StalenessProtocol.PushKeepsInv | psrl/workers/ps/ps_manager.py:1138-1204 | consuming the ready buffer of the current version and pushing the next model keeps the invariant: every earlier buffer stays complete |
| StalenessProtocol.MarkKeepsInv | psrl/workers/ps/staleness_controller.py:384-398 | marking a complete buffer without reservations for deletion keeps the invariant |
| StalenessProtocol.DeleteKeepsInv | psrl/workers/ps/staleness_controller.py:361-382 | deleting a consumed buffer keeps the invariant and forgets only occupied groups of that buffer |
| StalenessProtocol.NextKeepsInv | psrl/workers/ps/staleness_controller.py:280-1298 | every step of the protocol, aborts of part or all of a group included, keeps placement, tracking, order and the staleness bound of the versions on record |
| StalenessProtocol.RetryKeepsInv | psrl/workers/ps/staleness_controller.py:613-631 | reserving again for a request its group already holds grants the group's own slot and keeps the invariant |
| StalenessProtocol.BatchIsFresh | docs/design/staleness_control.md:60-92 | a batch consumed at version v holds exactly the batch size of finished groups of distinct prompts, whose recorded versions are between v minus the bound and v |
| StalenessProtocol.EveryBatchIsFresh | docs/design/staleness_control.md:80-92 | in every run of enabled steps, every batch handed to training obeys the staleness bound by the versions on record, and versions are consumed in order |
| StalenessProtocol.EveryRunIsFresh | docs/design/staleness_control.md:80-92 | so it is for every run from the empty inventory |
| StalenessTrajectories.NextTraced | psrl/workers/ps/staleness_controller.py:598-746 | a step keeps every record truthful about its requests' own versions if retries, retags and partial aborts meet the condition of Orderly, or retries and joins that of JoinsCovered |
| StalenessTrajectories.BatchMembersFresh | docs/design/staleness_control.md:32-60 | with truthful records every trajectory of the batch consumed at version v has its own version between v minus the bound and v |
| StalenessTrajectories.EveryTrajectoryIsFresh | docs/design/staleness_control.md:32-84 | in every run of enabled steps under either condition, every trajectory of every batch handed to training, retried ones included, is within the staleness bound of its own version |
| StalenessTrajectories.EveryRunTrainsOnFresh | docs/design/staleness_control.md:32-84 | the same for every run from the empty inventory |
| StalenessLimits.RaiseCondition | psrl/workers/ps/staleness_controller.py:598-1298 | of all enabled steps exactly these raise: a surplus group that no buffer takes, a new prompt under bound 0 without exactly one buffer with room, and an abort that would shrink a group whose only request is not a list |
| StalenessLimits.NoSurplusNeverRaises | psrl/workers/ps/staleness_controller.py:1103-1194 | with as many slots as batch entries and a positive bound no enabled step raises but that abort |
| StalenessRuns.SurplusMayLandLater | docs/design/staleness_control.md:80-84 | a run ends in a state from which a group is occupied in a later buffer than the one it was reserved in |
| StalenessRuns.SurplusMayRaise | psrl/workers/ps/staleness_controller.py:1271-1298 | a run ends in a state where a finished surplus group cannot be placed by any iteration order |
| StalenessRuns.RetagMayBreakBound | psrl/workers/ps/staleness_controller.py:711-746 | a run ends in a state where tagging a group with an older version the server has breaks the invariant |
| StalenessRuns.AdmittedMayFail | psrl/workers/ps/staleness_controller.py:670-709 | with bound 0 a run ends in a state where a request passes the admission check and its reservation then fails |
| StalenessRuns.AbortMayLeaveHole | psrl/workers/ps/ps_manager.py:606-652 | a run ends in a state where aborting the only request of a finished group empties a slot in front of another finished group and breaks the invariant |
| StalenessHidden.AbortMayRaise | psrl/workers/ps/ps_manager.py:634-636 | a run ends in a state where aborting a request that a group does not list raises |
| StalenessHidden.RetagMayHide | psrl/workers/ps/staleness_controller.py:637-746 | a run with a bound of one trains on a group whose record is fresh while one of its trajectories is two versions old, after a spread version was overwritten by a retag |
| StalenessHidden.AbortMayHide | psrl/workers/ps/ps_manager.py:634-650 | another run does so after a partial abort kept the wrong version |
| StalenessHidden.RetryMayHide | psrl/workers/ps/staleness_controller.py:623-631 | a third run does so after a retry whose older version was dropped |
| StalenessController.ScanFirstNonOccupied | psrl/workers/ps/staleness_controller.py:166-175 | the forward scan finds the length of the occupied prefix |
| StalenessController.ScanLastNonReserved | psrl/workers/ps/staleness_controller.py:177-187 | the backward scan finds the last slot before the reserved suffix, or -1 |
| StalenessController.SearchExchange | psrl/workers/ps/staleness_controller.py:976-1004 | the nested scan finds the first movable reservation of the incomplete buffers in the window |
| StalenessController.IndexFollows | psrl/workers/ps/staleness_controller.py:440-460 | moving one buffer between the status sets gives what recomputing the whole index would |
| StalenessController.KeepSurvivors | psrl/workers/ps/ps_manager.py:636-650 | the filtering loop keeps exactly the elements at the positions of surviving requests, in order |
| StalenessController.Controller.constructor | psrl/workers/ps/staleness_controller.py:295-326 | a new inventory is valid and empty |
| StalenessController.Controller.ComputeStatus | psrl/workers/ps/staleness_controller.py:234-269 | the scans compute the status |
| StalenessController.Controller.BuffersWithCapacity | psrl/workers/ps/staleness_controller.py:428-438 | the cached answer is the recomputed one |
| StalenessController.Controller.EnsureBuffers | psrl/workers/ps/staleness_controller.py:344-518 | missing buffers are created one by one up to the bound, and the cache follows |
| StalenessController.Controller.Reserve | psrl/workers/ps/staleness_controller.py:598-709 | the object's new state and answer are those of the protocol's reservation, for new and for joining requests |
| StalenessController.Controller.AbortReservation | psrl/workers/ps/staleness_controller.py:924-974 | the object's new state is that of the protocol's clear; untracked prompts are skipped |
| StalenessController.Controller.Abort | psrl/workers/ps/ps_manager.py:587-652 | aborting requests clears the group, shrinks it or raises as the protocol says, and a raise changes nothing |
| StalenessController.Controller.ReleaseReservation | psrl/workers/ps/staleness_controller.py:975-1058 | the object's new state is that of the protocol's release with exchange |
| StalenessController.Controller.Occupy | psrl/workers/ps/staleness_controller.py:1103-1298 | the object moves as the protocol does and stays valid; an exception means no iteration order could have succeeded |
| StalenessController.Controller.DropOccupied | psrl/workers/ps/staleness_controller.py:877-922 | the object's new state is that of the protocol's drop |
| StalenessController.Controller.UpdateVersionTag | psrl/workers/ps/staleness_controller.py:711-746 | the object's new state is that of the protocol's retag, and no status changes |
| StalenessController.Controller.DeleteBuffer | psrl/workers/ps/staleness_controller.py:361-382 | the buffer and exactly the groups tracked in it are forgotten; an unknown buffer changes nothing |
| StalenessController.Controller.MarkForDeletion | psrl/workers/ps/staleness_controller.py:384-392 | the buffer is marked exactly when it is ready |
| StalenessController.Controller.Perform | psrl/workers/ps/staleness_controller.py:280-1058 | every protocol step other than occupying takes the object to the protocol's next state and keeps it valid |
| QkvLayout.FusedRow | scripts/convert_hf_to_mcore.py:252-258 | every row of the fused matrix is the row of Q, K or V that its group and offset say |
| QkvLayout.OriginInjective | scripts/convert_hf_to_mcore.py:252-258 | two positions of the fused matrix never hold the same row |
| QkvLayout.OriginSurjective | scripts/convert_hf_to_mcore.py:252-258 | every row of Q, K and V has a position in the fused matrix |
| QkvLayout.SplitOfFuse | scripts/convert_hf_to_mcore.py:252-265 | splitting the fused tensor per group gives back exactly Q, K and V |
| QkvLayout.FuseOfSplit | scripts/convert_hf_to_mcore.py:252-265 | every tensor of the fused size is the fusion of its split, so the layout is a bijection |
| QkvLayout.FusedLayer | scripts/convert_hf_to_mcore.py:252-265 | on every input the fused layer computes the same permutation of the three separate layers |
| QkvLayout.FusedLayerSplits | scripts/convert_hf_to_mcore.py:252-265 | splitting the fused layer's output gives the outputs of the three layers |
| QkvConverters.DenseConverts | scripts/convert_hf_to_mcore.py:252-265 | weight and bias, whose group sizes are computed differently, get one and the same layout, and convert exactly when the groups divide the query rows |
| QkvConverters.WholeHeads | scripts/convert_hf_to_mcore.py:252-254 | key-value heads that divide the query heads give groups of whole query heads |
| QkvConverters.HeadsAgree | scripts/convert_hf_to_mcore.py:469-473 | concatenating heads inside groups places every row where concatenating groups does |
| QkvConverters.ByHeadAgrees | scripts/convert_hf_to_mcore.py:469-473 | the 4-D conversion succeeds exactly for whole heads per group and then equals the 3-D one |
| QkvConverters.TransposedIsFused | scripts/convert_hf_to_mcore.py:418-424 | the vision tower's transposition of a stacked Q, K, V is their fusion |
| QkvConverters.VisionConverts | scripts/convert_hf_to_mcore.py:418-433 | weight and bias of the vision tower get the same permutation although only the weight is viewed by head |
| QkvConverters.VisionLayer | scripts/convert_hf_to_mcore.py:418-433 | on every input the converted vision layer computes that permutation of the original layer |
| ModelSharding.CumulativeSum | scripts/convert_hf_to_mcore.py:718 | the running sums of the shard sizes |
| ModelSharding.LayerRange | scripts/convert_hf_to_mcore.py:718-720 | a rank's range starts behind all earlier shards and has its own size |
| ModelSharding.OneRankPerLayer | scripts/convert_hf_to_mcore.py:718-720 | with shard sizes summing to the layer count every layer belongs to exactly one rank |
| ModelSharding.CopyExperts | scripts/convert_hf_to_mcore.py:559-574 | a rank's local slots hold exactly its range of experts, in order, and the count is their size |
| ModelSharding.OneRankPerExpert | scripts/convert_hf_to_mcore.py:176-184 | no expert goes to two ranks, and its local slot is its remainder |
| ModelSharding.DistinctSlots | scripts/convert_hf_to_mcore.py:176-184 | two experts of one rank never share a slot |
| ModelSharding.AllCopied | scripts/convert_hf_to_mcore.py:176-184 | every expert is copied by some rank if and only if the ranks divide the experts |
| ModelSharding.CountAgrees | scripts/convert_hf_to_mcore.py:590-593 | with equal positive projection sizes the count assertion holds if and only if the ranks divide the experts |
| ModelSharding.ConvertLayer | scripts/convert_hf_to_mcore.py:559-593 | with equal projection sizes converting a layer succeeds on a rank if and only if there are at least as many experts as ranks and the ranks divide them (or the projections are empty); then its slots hold its experts and the count is theirs |
| WorkerQueue.NextInv | examples/sciaccel_rl/eval/eval_sciaccel.py:579-614 | every step keeps queued, running and finished tasks a partition, keeps started workers busy while tasks wait, and keeps the records those of the finished jobs in order of completion |
| WorkerQueue.EveryRun | examples/sciaccel_rl/eval/eval_sciaccel.py:572-622 | that holds after every interleaving, and each step does exactly one unit of the work left |
| WorkerQueue.EndpointBound | examples/sciaccel_rl/eval/eval_sciaccel.py:616-620 | no endpoint runs more jobs at once than it has slots |
| WorkerQueue.EachTaskOnce | examples/sciaccel_rl/eval/eval_sciaccel.py:572-622 | when all workers have returned, of which there is at least one, every task was finished exactly once |
| WorkerQueue.CompleteRun | examples/sciaccel_rl/eval/eval_sciaccel.py:587-622 | in every complete run a crash contributes exactly one failure record, a task is missing exactly when its job returned no trials, and the number of steps is tasks plus workers |
| WorkerQueue.NoWorkers | examples/sciaccel_rl/eval/eval_sciaccel.py:616-622 | without a worker the call returns at once with all tasks still queued |
| ShardedEval.RunEval | examples/mini_swe/eval/eval_swebench.py:472-505 | the collecting loops give one row per completed problem, in order, a crash included, and the predictions of those rows |
| ShardedEval.Shard | examples/mini_swe/eval/eval_swebench_multinode.py:101-149 | the split raises exactly on an empty data set or a missing id, and shard i holds the problems of bucket i in order |
| ShardedEval.ShardsPartition | examples/mini_swe/eval/eval_swebench_multinode.py:134-149 | for any hash and shard count no problem is lost, duplicated or invented |
| ShardedEval.MergeOutputs | examples/mini_swe/eval/eval_swebench_multinode.py:407-465 | the merging loops keep the first row of every id, update predictions in host order and summarise what is left |
| ShardedEval.OneRowPerId | examples/mini_swe/eval/eval_swebench_multinode.py:416-427 | exactly one row per id survives the merge, and no id is lost or added |
| ShardedEval.ShardedPreds | examples/mini_swe/eval/eval_swebench_multinode.py:407-434 | merged predictions equal those of the run on one node, for any hash, shard count and completion order |
| ShardedEval.ShardedRunRefines | examples/mini_swe/eval/eval_swebench_multinode.py:407-465 | with distinct ids the merged rows and the summary equal those of the run on one node |
| ShardedEval.TotalCondition | examples/mini_swe/eval/eval_swebench_multinode.py:453-463 | the totals agree if and only if no problem is repeated |
| ShardedEval.SanitisedEqual | examples/mini_swe/eval/eval_swebench_multinode.py:591-595 | two hosts share an output directory if and only if they differ only in separators and underscores |
| ShardedEval.SharingHarmless | examples/mini_swe/eval/eval_swebench_multinode.py:591-596 | sharing a directory loses nothing when the hosts that share have empty shards |
| ShardedEval.SharingLoses | examples/mini_swe/eval/eval_swebench_multinode.py:591-596 | otherwise some order of writing loses a problem from every directory |
| Polling.HealthyMeaning | psrl/eval/vllm_server.py:385-446 | a server is healthy exactly when a visit found it alive and serving and no earlier visit was decisive |
| Polling.Round | psrl/eval/vllm_server.py:411-427 | a round keeps pending and decided servers a partition and visits every undecided server exactly once and no other, in any order |
| Polling.WaitReady | psrl/eval/vllm_server.py:385-446 | one verdict per handle in input order; the visits made are, round after round, exactly one to each server that has no verdict yet |
| Fleet.PartitionGpus | psrl/eval/vllm_fleet.py:149-177 | the blocks have equal size and concatenate to the GPUs; a count that does not fit raises |
| Fleet.SpecsFit | psrl/eval/vllm_fleet.py:202-235 | a successful expansion uses exactly the chosen GPUs and gives pairwise distinct ports; if the base port and all three parallel sizes are positive every server passes its own check, otherwise the first one fails it |
| Fleet.BlocksDisjoint | psrl/eval/vllm_fleet.py:177 | blocks of distinct GPUs share none |
| Fleet.RenderInjective | psrl/eval/vllm_server.py:99-103 | servers with different host or port have different addresses |
| Fleet.LaunchFleet | psrl/eval/vllm_fleet.py:316-350 | the launch raises before starting anything if the expansion or the first server's check fails; otherwise it returns exactly when the quorum is met, the endpoints file reads back as the healthy addresses in order, and below the quorum every server is stopped |
| Fleet.LaunchMultinode | psrl/eval/vllm_multinode.py:280-309 | the aggregate is the hosts' healthy endpoints in host order, the failed hosts are those that contributed none, and too few endpoints raise |
| Fleet.AggregatedUrlsDistinct | psrl/eval/vllm_multinode.py:157-289 | whatever fleets are launched on distinct hosts, all aggregated addresses are pairwise distinct |
| RoundRobin.VisitsBalanced | examples/mini_swe/prepare/swebench_subsets.py:117-124 | no pool is ever two visits ahead of another |
| RoundRobin.GivesPrefix | examples/mini_swe/prepare/swebench_subsets.py:119-124 | after every step a pool has given a prefix of its shuffled list, of length min(capacity, visits) |
| RoundRobin.Collect | examples/mini_swe/prepare/swebench_subsets.py:116-124 | the loop ends although it steps over empty pools, and collects min(total, sum of capacities) items |
| RoundRobin.MaxMinFair | examples/mini_swe/prepare/swebench_subsets.py:113-124 | any other allocation of the same size that gives a pool more takes from a pool whose share is at most one above it |
| RoundRobin.GroupByRepo | examples/mini_swe/prepare/swebench_subsets.py:101-104 | grouping collects every repository's problems in order |
| RoundRobin.SampleIsFair | examples/mini_swe/prepare/swebench_subsets.py:99-124 | the sample has the right size, draws no problem more often than it occurs, is max-min fair between repositories, and two repositories differ by more than one only if the smaller is exhausted |
| RoundRobin.RepoBalancedSample | examples/mini_swe/prepare/swebench_subsets.py:99-127 | the sampler raises exactly on a non-positive total or cap; otherwise it groups the problems by repository and returns such a sample over all repositories, however they are sorted and shuffled |
| MarkdownSplit.SplitTopLevel | scripts/depunct_docs.py:62-130 | the scanning loops give the specified chunks, and joined by newlines they are the source |
| MarkdownSplit.Lossless | scripts/depunct_docs.py:71-130 | for every source and every recogniser the chunks joined by newlines reproduce the source |
| MarkdownSplit.BlocksClassified | scripts/depunct_docs.py:85-130 | every line of every block has the block's kind by a line-by-line reading of the file, and a fenced block is a whole fence or the opening or closing line of a directive |
| MarkdownSplit.ProseLines | scripts/depunct_docs.py:62-130 | a line is handed to the rewriter if and only if it is no front matter, no marker line and not inside a fence other than a directive with a prose body |
| MarkdownSplit.ProseIsMaximal | scripts/depunct_docs.py:84-130 | no two neighbouring chunks are prose, so each is a maximal run of prose lines |
| MarkdownSplit.RebuildKeeps | scripts/depunct_docs.py:244-247 | the rebuilt file differs from the source only inside prose chunks: every other chunk stands in both, in its place among the chunks |
| MarkdownSplit.RebuildIdentity | scripts/depunct_docs.py:244-247 | a rewriter that changes no prose chunk changes nothing |
| MarkdownRewrite.LabelPass | scripts/depunct_docs.py:173-188 | a label pass keeps words and placeholders, brings in no mark, and lowers the number of em dashes by its matches |
| MarkdownRewrite.RewriteLabels | scripts/depunct_docs.py:214-218 | the fixpoint loop ends, with no label match left |
| MarkdownRewrite.DashesToCommasKeeps | scripts/depunct_docs.py:221 | replacing em dashes keeps words and placeholders in order |
| MarkdownRewrite.DashesToCommasFree | scripts/depunct_docs.py:221 | and leaves no em dash |
| MarkdownRewrite.CapitalKeeps | scripts/depunct_docs.py:191-197 | capitalising keeps words and placeholders |
| MarkdownRewrite.LineEndsKeeps | scripts/depunct_docs.py:200-228 | line-ending semicolons become periods without touching words or placeholders |
| MarkdownRewrite.CollapseKeeps | scripts/depunct_docs.py:235-236 | collapsing commas keeps words and placeholders |
| MarkdownRewrite.Rewrite | scripts/depunct_docs.py:207-238 | the result is the composition of the steps, has the same words and placeholders in the same order, and no em dash, en dash or semicolon |
| MarkdownRewrite.MarkFreeUntouched | scripts/depunct_docs.py:207-238 | prose without the marks is left alone up to the collapsing of comma sequences, and without commas altogether |
| MarkdownMask.Mask | scripts/depunct_docs.py:152-157 | the substitution spells numbered placeholders for the protected spans, in order, and saves the spans |
| MarkdownSpelling.AfterLabelsSpelled | scripts/depunct_docs.py:220-238 | each step after the label passes, on text with spelled placeholders, gives what spelling its result on single symbols gives |
| MarkdownSpelling.LabelPassSpelled | scripts/depunct_docs.py:173-188 | a label pass over spelled text gives the spelling of a text with the same words and placeholders |
| MarkdownSpelling.RewritingSpelled | scripts/depunct_docs.py:207-238 | rewriting spelled text gives spelled text: same words and placeholders in order, no mark, and no NUL in the prose if there was none |
| MarkdownMask.RestoreMask | scripts/depunct_docs.py:152-165 | restoring undoes masking |
| MarkdownMask.RestoreEncoded | scripts/depunct_docs.py:143-165 | in text without NUL, string substitution finds exactly the spelled placeholders |
| MarkdownMask.TransformProse | scripts/depunct_docs.py:146-165 | on strings, for prose without NUL: every protected span stands in the result verbatim and in order, and the text between has no mark and the words of the source there |
| MarkdownMask.FakePlaceholderRaises | scripts/depunct_docs.py:143-165 | prose that spells a placeholder itself, with NUL, makes the restoration raise |
| BoxedAnswer.ScanBraces | examples/mem_agent/reward.py:17-25 | the counting loop finds the first brace that brings the count back to zero |
| BoxedAnswer.FindLastBoxed | examples/mem_agent/reward.py:9-26 | the space form, the marker search and the scan as specified |
| BoxedAnswer.BalancedBodyIsFound | examples/mem_agent/reward.py:9-39 | a brace-balanced body behind the last marker is found and unwrapped exactly |
| BoxedAnswer.AnswerIsBalancedBody | examples/mem_agent/reward.py:9-39 | a non-empty answer from braces is the balanced body behind the last marker |
| BoxedAnswer.ExtractBoxedAnswer | examples/mem_agent/reward.py:37-39 | the answer is the stripped rest of the last space form up to a dollar sign, or else the stripped balanced body behind the last marker, or else empty |
| BoxedAnswer.StripMeaning | examples/mem_agent/reward.py:37-39 | stripping takes white space off both ends, all of it and nothing else |
| BatchSpec.ReadPrintedSegment | psrl/bench/chunked_prefill/batch_spec.py:68-76 | reading inverts printing for every segment of the grammar |
| BatchSpec.ParseBatchSpec | psrl/bench/chunked_prefill/batch_spec.py:82-109 | the loop gives the concatenated segments, or raises if one cannot be read |
| BatchSpec.ParseDistributes | psrl/bench/chunked_prefill/batch_spec.py:95-109 | parsing distributes over joining with an underscore, errors included |
| BatchSpec.ParsePrintedRequests | psrl/bench/chunked_prefill/batch_spec.py:82-109 | every non-empty list of valid requests has a specification that parses to it |
| BatchSpec.LabelInjective | psrl/bench/chunked_prefill/batch_spec.py:122-130 | a summary label determines its request |
| BatchSpec.CountLabels | psrl/bench/chunked_prefill/batch_spec.py:122-130 | the counter holds the number of requests under each label |
| BatchSpec.CountsDetermine | psrl/bench/chunked_prefill/batch_spec.py:112-132 | equal counts mean the same requests, equally often |
| BatchSpec.FormatBatchSpec | psrl/bench/chunked_prefill/batch_spec.py:112-132 | the loop prints the labels with their counts in order of first occurrence, or the word for none |
| BatchSpec.SummaryDetermines | psrl/bench/chunked_prefill/batch_spec.py:112-132 | the printed summary determines the requests and how often each occurs |
| BatchSpec.CountsDetermineTotals | psrl/bench/chunked_prefill/batch_spec.py:135-148 | so the counts determine query tokens and blocks |
| BatchSpec.BlocksBound | psrl/bench/chunked_prefill/batch_spec.py:140-148 | the blocks hold all KV tokens and waste less than one block per request |
| PayloadKeys.OwnerOfKey | psrl/utils/transferqueue_utils.py:28-34 | a request's id can be read back from each of its keys |
| PayloadKeys.KeysNeverCollide | psrl/utils/transferqueue_utils.py:28-34 | keys of different requests never collide for any trajectory counts |
| PayloadKeys.BatchKeysDistinct | psrl/utils/transferqueue_utils.py:28-34 | a batch's keys are distinct if and only if no two entries have the same id with both or neither a single trajectory |
| PayloadKeys.BatchReady | psrl/utils/transferqueue_utils.py:78-101 | a batch may be published if and only if no entries clash and every payload is committed |
| PayloadKeys.Store.ClearPayload | psrl/utils/transferqueue_utils.py:37-62 | a non-terminal state raises; otherwise exactly the given keys leave the partition |
| PayloadKeys.ClearedRun | psrl/utils/transferqueue_utils.py:53-62 | a run of clears removes the keys of its requests and nothing else |
| PayloadKeys.ClearIdempotent | psrl/utils/transferqueue_utils.py:42-62 | clearing again changes nothing |
| PayloadKeys.ClearKeepsOthers | psrl/utils/transferqueue_utils.py:42-62 | any run of clears keeps every other request exactly as ready as it was |
| ChunkSize.Resolve | psrl/utils/config.py:42-105 | it succeeds exactly for supported settings with whole, evenly divided groups; the chunk is the smallest of the requested size, the mini batch and the whole batch; the whole batch means all groups; at mini-batch granularity it is a multiple of the mini batch |
| ChunkSize.WindowHoldsWholeUpdates | psrl/utils/config.py:383-396 | a multiple of the mini batch makes a whole number of actor updates for any positive requests per group |
| ChunkSize.CheckWindow | psrl/utils/config.py:381-396 | a configuration is accepted if and only if it resolves and its groups per chunk are a multiple of the mini batch; at effective mini-batch granularity every one that resolves is |
| ChunkSize.WholeUpdatesMeaning | psrl/utils/config.py:383-396 | for positive sizes a window holds a whole number of updates if and only if its groups are a multiple of the mini batch |
| MemAgent.ReadContext | examples/mem_agent/runner.py:121-165 | the chunks concatenate to the tokens, turn k reads chunk k with the memory of the turns before, and memory is the last non-empty response or the no-memory text |
| MemAgent.RunAgent | examples/mem_agent/runner.py:108-199 | the run raises exactly when an oversized context may not be truncated; otherwise it has one turn per chunk of the truncated context and a final one |
| MemAgent.LastKept | examples/mem_agent/runner.py:150-151 | the final memory is the last response worth keeping |
| MemAgent.NothingKept | examples/mem_agent/runner.py:122-151 | without one it is the no-memory text |
| MemAgent.TurnsFit | examples/mem_agent/agent_loop.py:21-25 | a run never exceeds the loop's turns |

## Left out

- Staleness control: the validation inventory without a staleness bound, moving occupied entries between buffers, clears of several prompts in one call (a sequence of single clears here), locks, the gRPC wrapper and model transfer.
- StalenessProtocol.NextKeepsInv: the guards of the steps are the callers' duties in the source (versions never above the server's, drops only from unconsumed buffers, retags within the bound, at least one request required of a group, and that a group cleared by an abort is reserved or harmless to clear); past the conditions the lemmas above state for single steps, a run that breaks them is not followed. A retag of a request that a group with a list of requests does not list raises ValueError in the source and is no step here.
- StalenessTrajectories.EveryTrajectoryIsFresh: holds under a condition on retries and on each retag and partial abort, or on retries and joins; which longer runs stay within the bound although they break both is not characterised.
- StalenessController.Controller.Abort: `abort_group` is on, and one prompt at a time; the calls that stop the aborted requests on the rollout workers.
- StalenessController.Controller.Perform: an exception inside an operation leaves the object as the operations before it made it; the model promises nothing about such a half-done state.
- Weight conversion: dtypes, devices and the copy itself beyond shapes; weights are sequences of rows over integers, so rounding plays no part. Norms, embeddings, router and shared-expert copies are plain copies.
- QkvConverters.DenseConverts: a view whose last dimension is inferred is modelled row by row, so inputs whose every tensor is oversized by the same factor, which the destination's shape check rejects, are not.
- WorkerQueue.CompleteRun: cancellation and exceptions raised by the record callback.
- ShardedEval.ShardedRunRefines: copying or linking of per-instance directories, unreadable prediction files and rounding of rates.
- Polling.WaitReady: time is a number of rounds; the deadline is checked between rounds, as in the source.
- Fleet.LaunchFleet: ports are natural numbers, and of a server's own check the checkpoint directory, the model name and the memory fraction are taken as good.
- Fleet.LaunchMultinode: URL parsing; addresses are host and port with a fixed scheme and path.
- RoundRobin.RepoBalancedSample: the sorted order of the repositories is any enumeration without repetition, and the shuffle any rearrangement.
- MarkdownRewrite.Rewrite: the regular expressions for labels and protected spans are arbitrary matchers that return ordered, disjoint matches of the right kind.
- MarkdownMask.TransformProse: for prose that contains NUL nothing is promised beyond the value itself.
- BatchSpec.ReadPrintedSegment: digits are ASCII, and a trailing newline, which the pattern would accept, is not.
- ChunkSize.Resolve: the arithmetic of the configuration check's other branches, among them the critic's window.
- Reward tables, plotting, dataset preparation, tool wrappers, Docker, SSH, HTTP and Ray effects: input and output or single branches.
