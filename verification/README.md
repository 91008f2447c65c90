# FastDeploy kernels and protocols, verified

A Dafny model of the parts of FastDeploy whose correctness rests on arguments
that no single function shows: a sorting network run by a warp, a streaming
top-k, expert routing, the cutting of multimodal prompts, the permutation
around the expert computation, two KV-cache transfer protocols, ragged batches,
the decode loop, a base64 codec and the table of captured graph sizes.
`dafny verify dfyconfig.toml` checks everything.

Where the source changes buffers, fields or dictionaries step by step, the model
does too: methods over arrays, classes with fields, loops with invariants. Each
such method is proved against a specification, and what the source promises is
proved about that specification. The two transfer protocols are transition
systems with inductive invariants over their runs.

## What is modelled

**Warp-level top-k and group-limited routing** (`custom_ops/gpu_ops/noauxtc_kernel.h`).
`BitonicNetwork` is the sorting network as a relation between sequences: a
sequence is bitonic if for every threshold the positions above it form one arc
of a circle, and an exchange step halves the bitonic blocks. `WarpSort` runs the
network in place on the registers of 32 lanes (register r of lane l is cell
32r + l). `TopK` says what the k best of everything offered are, and that it is
what sorting and taking k gives. `WarpSelect` is the queue with its
ballot-ordered buffer. `TopTwo` is the score of a group, `GroupThreshold` the
choice of groups, `GroupRouting` the choice of experts and the routing weights of
one token.

**Multimodal chunking** (`get_img_boundaries.cc`, `get_mm_split_fuse.cc`).
`ImageStream` describes a well-formed prompt; `ChunkSplit` holds the two scans
and the chunking loop.

**Mixture of experts** (`custom_ops/iluvatar_ops/fused_moe_op.h`). `MoeTopK` is
the selection by k rounds of argmax with any reduction tree, `MoeGrouped` the
grouped variant with its normalised softmax, `MoePermute` the way from the
routed rows through the experts and back. The radix sort is any permutation
that sorts the keys and carries the values along.

**Transfer protocols.** `LayerwiseSend` is one rank of layerwise sending:
the producer's two shared words, read one after the other by the polling sender.
`Barriers`, `LockStepLoop`, `LockStepPool` and `LockStep` are the N-rank swap
manager: the main loops with three barriers and the shared task queue, and two
single-worker pools with two barriers each. A step of a run is one step of one
thread. `LockStepOvertaken` holds two runs that go wrong.

**CPU operators** (`custom_ops/cpu_ops`). `RaggedBatch` packs padded rows and
rebuilds one row per sequence. `DecodeRow` is a row of the batch going through
record, sample, stop and update; `DecodeKernels` runs the kernels on the flat
buffers; `DecodeRuns` speaks of all runs; `TokenPenalty` counts the history.

**Codec and table.** `Base64` (`custom_ops/gpu_ops/helper.h`) is RFC 4648
section 4 with the letters in another order; `CaptureTable` (`fastdeploy/config.py`)
is the map from batch sizes to captured sizes.

Floats are reals, tensors are arrays or sequences. `exp` is any positive and
strictly increasing function. Sampling, the expert networks and the layers of the model
are parameters.

## Results that are not what one would expect

- `topk_with_k2` adds the two largest members exactly when the second is at
  least the sentinel, or the group has exactly 32 members and its maximum is
  tied (`TopTwo.TopkWithK2`, with a failing group in `TopTwo.BelowSentinelFails`).
- The max-and-ballot loop ends exactly when `topk_group` group scores reach the
  sentinel, or 32 groups all lie below it and `topk_group` of them share the
  largest score (`GroupThreshold.LoopEndsExactly`; a token for which it does not is
  `GroupRouting.GroupsOf32CanHang`).
  It then admits the right groups exactly when no group scores the sentinel itself
  or enough share the largest score (`GroupThreshold.FindThreshold`,
  `GroupThreshold.SentinelScoreFails`).
- With `topk_group == n_group` the routing kernel answers the first `topk`
  indices with equal weights (`GroupRouting.RouteToken`).
- Grouped routing takes the largest logit of each group, in order, exactly when
  every group but the last has a single largest logit (`MoeGrouped.RouteRow`,
  `MoeGrouped.TiedRowFails`).
- `moe_top_k` finds the k best experts exactly when none of them falls to the
  floor of -1, expert 0 excepted (`MoeTopK.SelectRow`, `MoeTopK.BelowFloorFails`).
- The sender's two copies can be relied on exactly when the layer copy is not
  ahead of the step read after it (`LayerwiseSend.ReliableExactly`). One producer
  store between the reads never makes it so, two can
  (`LayerwiseSend.OneStoreBetweenIsEnough`, `LayerwiseSend.TwoStoresBetweenAreTooMany`).
  Torn or not, a request whose step is over is finished in one go
  (`LayerwiseSend.RequestIsFinished`).
- `put_transfer_task` may append only while nobody reads a task
  (`LockStepLoop.AppendExactly`), but polls for that without holding the lock. As
  long as no append has overtaken a read, the ranks stay in step in every run
  (`LockStep.LoopsInStep`, `LockStep.TransfersInStep`), never deadlock
  (`LockStep.LoopsGoOn`, `LockStepLoop.HalfRoundEnds`) and pass over no task
  (`LockStep.RoundTakesTask`, `LockStep.NothingIsLeft`). After one they may take different tasks
  (`LockStepOvertaken.OvertakenComesApart`) or wait for each other for ever
  (`LockStepOvertaken.OvertakenGetsStuck`).
- Rebuilding reads the last token of a row exactly if the row is a whole prompt
  or one decoded token (`RaggedBatch.Batch.ReadsLast`, `RaggedBatch.TwoDecodedTokensFail`).
- The operator that stops rows takes a `beam_search` attribute and ignores it.
- A comment in `config.py` has the default sizes go on from 256 to 288; the list
  itself jumps to 544. The model follows the list.
- The capture table covers 0 to the greatest size exactly when no size is
  negative (`CaptureTable.CoversFromZero`).

## Model

| member | source | states |
|---|---|---|
| `BitonicNetwork.PartnersAgree` | custom_ops/gpu_ops/noauxtc_kernel.h:117-139 | the two lanes of an exchange decide from opposite sides and always agree on whether to swap, ties included |
| `BitonicNetwork.HalfCleanKeeps` | custom_ops/gpu_ops/noauxtc_kernel.h:66-79 | comparing the halves of a bitonic sequence leaves two bitonic halves, everything in the first on the right side of everything in the second |
| `BitonicNetwork.HalfCleanPermutes` | custom_ops/gpu_ops/noauxtc_kernel.h:70-78 | the comparison moves (value, index) pairs and loses none |
| `BitonicNetwork.UpDownBitonic` | custom_ops/gpu_ops/noauxtc_kernel.h:95-98 | two runs sorted in opposite directions form a bitonic sequence |
| `BitonicNetwork.PartnerShift` | custom_ops/gpu_ops/noauxtc_kernel.h:113-138 | an exchange partner stays inside its aligned block, so a step of the warp is a step of every block |
| `BitonicNetwork.MergingStep` | custom_ops/gpu_ops/noauxtc_kernel.h:133-143 | one exchange of a merge turns bitonic blocks of 2h into ordered bitonic blocks of h and keeps the pairs |
| `BitonicNetwork.MergedIsSorted` | custom_ops/gpu_ops/noauxtc_kernel.h:133-143 | blocks of length one that are ordered between them are a sorted sequence |
| `BitonicNetwork.StageStepKeeps` | custom_ops/gpu_ops/noauxtc_kernel.h:111-121 | one exchange of a sorting stage halves the blocks in every region, odd regions in the other direction |
| `BitonicNetwork.StageStart` | custom_ops/gpu_ops/noauxtc_kernel.h:110-111 | sorted runs of alternating direction are the regions of the next stage, each of them bitonic |
| `BitonicNetwork.StageEnd` | custom_ops/gpu_ops/noauxtc_kernel.h:110-122 | a finished stage leaves sorted runs twice as long |
| `BitonicNetwork.JoinHalves` | custom_ops/gpu_ops/noauxtc_kernel.h:81-83 | sorting both sides of an ordered split sorts the whole |
| `WarpSort.MergeExchange` | custom_ops/gpu_ops/noauxtc_kernel.h:134-142 | all lanes read the values before the exchange; the result is the network's step, and no other register changes |
| `WarpSort.StageExchange` | custom_ops/gpu_ops/noauxtc_kernel.h:111-121 | the same for an exchange whose direction depends on the lane's region |
| `WarpSort.MergeWarp` | custom_ops/gpu_ops/noauxtc_kernel.h:128-145 | 32 cells that are bitonic become sorted in the requested direction, a permutation of the pairs |
| `WarpSort.SortStage` | custom_ops/gpu_ops/noauxtc_kernel.h:110-122 | one stage doubles the length of the sorted runs |
| `WarpSort.SortWarp` | custom_ops/gpu_ops/noauxtc_kernel.h:102-126 | any 32 cells become sorted in the requested direction, a permutation of the pairs |
| `WarpSort.SplitBitonic` | custom_ops/gpu_ops/noauxtc_kernel.h:65-79 | the first loop of a merge leaves two bitonic halves ordered between them |
| `WarpSort.Merge` | custom_ops/gpu_ops/noauxtc_kernel.h:56-85 | for every power of two from 32 up: a bitonic stretch becomes sorted, a permutation of the pairs, nothing else touched |
| `WarpSort.Sort` | custom_ops/gpu_ops/noauxtc_kernel.h:87-100 | for every power of two from 32 up: any stretch becomes sorted in the requested direction, a permutation of the pairs, nothing else touched |
| `TopK.TopKIsSortAndTake` | custom_ops/gpu_ops/noauxtc_kernel.h:208-306 | whatever the order of the offers and however ties were broken, the k best have the values of sorting everything and taking k, filled up with dummies |
| `TopK.ImprovedIsBest` | custom_ops/gpu_ops/noauxtc_kernel.h:282-286 | replacing the last registers by the better opposites of the sorted buffer keeps a bitonic sequence and displaces nothing better than what stays |
| `TopK.ImprovedKeepsAll` | custom_ops/gpu_ops/noauxtc_kernel.h:282-286 | what is kept and what is displaced are together the registers and the buffer |
| `TopK.PositionsRise` | custom_ops/gpu_ops/noauxtc_kernel.h:282-290 | after a merge no position of the registers holds a smaller value than before |
| `WarpSelect.RankOfLane` | custom_ops/gpu_ops/noauxtc_kernel.h:243 | the popcount below a lane is the number of passing candidates before it |
| `WarpSelect.SlotOfLane` | custom_ops/gpu_ops/noauxtc_kernel.h:243-248 | so the slots of the passing lanes are consecutive and in lane order |
| `WarpSelect.BestAfterMerge` | custom_ops/gpu_ops/noauxtc_kernel.h:279-291 | a merge keeps every dropped candidate at or below the value the filter uses |
| `WarpSelect.CellBeyondK` | custom_ops/gpu_ops/noauxtc_kernel.h:211-277 | the register the filter reads never precedes the k-th |
| `WarpSelect.ResultIsTopK` | custom_ops/gpu_ops/noauxtc_kernel.h:263-272 | with an empty buffer the first k registers are the k best of everything seen |
| `WarpSelect.Queue.constructor` | custom_ops/gpu_ops/noauxtc_kernel.h:150-225 | an empty queue has accounted for everything it has seen |
| `WarpSelect.Queue.MergeBuf` | custom_ops/gpu_ops/noauxtc_kernel.h:279-291 | registers and buffer are merged: sorted registers, the rest dropped, no dropped candidate above the new filter value |
| `WarpSelect.Queue.StoreFirst` | custom_ops/gpu_ops/noauxtc_kernel.h:243-248 | the first stores append the passing candidates to the buffer in lane order up to slot 31 |
| `WarpSelect.Queue.StoreRest` | custom_ops/gpu_ops/noauxtc_kernel.h:255-259 | the stores after the merge are the remaining candidates, in order, from slot 0 |
| `WarpSelect.Queue.Add` | custom_ops/gpu_ops/noauxtc_kernel.h:236-261 | after each call every candidate seen so far is in the registers, in the buffer or dropped, and a dropped one cannot change the answer |
| `WarpSelect.Queue.Done` | custom_ops/gpu_ops/noauxtc_kernel.h:263-272 | after any sequence of calls the first k registers are the k best candidates seen, descending, with their own indices, padded with dummies |
| `WarpSelect.Queue.DumpIdx` | custom_ops/gpu_ops/noauxtc_kernel.h:187-194 | the indices of those k |
| `TopTwo.LaneTopTwo` | custom_ops/gpu_ops/noauxtc_kernel.h:319-328 | a lane holds the two largest of its strided positions, by position |
| `TopTwo.TopTwoExists` | custom_ops/gpu_ops/noauxtc_kernel.h:309-351 | every group of two or more has two largest members, so the claims about them are never empty |
| `TopTwo.ReductionIsExact` | custom_ops/gpu_ops/noauxtc_kernel.h:337-349 | max, tie count by ballot and second max give the two largest of the members and two sentinels; in a group of exactly 32 the second is a tie, a member, or the sentinel |
| `TopTwo.TopkWithK2` | custom_ops/gpu_ops/noauxtc_kernel.h:309-351 | the exact value for every group and any scores; it is the sum of the two largest members, duplicates counted, if and only if the second is at least the sentinel or the group has exactly 32 members with a tied maximum |
| `TopTwo.ScoreFloor` | custom_ops/gpu_ops/noauxtc_kernel.h:316-349 | unless the group has exactly 32 members the score is at least two sentinels |
| `TopTwo.BelowSentinelFails` | custom_ops/gpu_ops/noauxtc_kernel.h:316-349 | a group whose second member lies below the sentinel gets the sentinel in its place |
| `GroupThreshold.AfterRounds` | custom_ops/gpu_ops/noauxtc_kernel.h:425-434 | after n rounds exactly the scores from some level up are gone, at least n of them unless that level is the sentinel |
| `GroupThreshold.LoopEndsExactly` | custom_ops/gpu_ops/noauxtc_kernel.h:415-434 | the loop ends if and only if topk_group scores reach the sentinel, or 32 groups all lie below it and topk_group of them share the largest score |
| `GroupThreshold.NeverEndsExample` | custom_ops/gpu_ops/noauxtc_kernel.h:415-434 | one group above the sentinel, two below, two to be admitted: no round reaches the target |
| `GroupThreshold.FindThreshold` | custom_ops/gpu_ops/noauxtc_kernel.h:415-436 | given that the loop ends, the score found and the tie count admit exactly the topk_group best groups if and only if no group scores exactly the sentinel or enough share the largest score; the score found is the sentinel exactly if the best group scores it |
| `GroupThreshold.FoundIsRight` | custom_ops/gpu_ops/noauxtc_kernel.h:425-435 | the same for whatever round the loop stops in |
| `GroupThreshold.SentinelScoreFails` | custom_ops/gpu_ops/noauxtc_kernel.h:432-435 | a group that scores exactly the sentinel is counted as removed, and one group too few is admitted |
| `GroupThreshold.BestIfEnough` | custom_ops/gpu_ops/noauxtc_kernel.h:446-459 | for any threshold and tie count each admitted group precedes every rejected one by score, then index; so they are the best k exactly if there are k |
| `GroupThreshold.Threshold` | custom_ops/gpu_ops/noauxtc_kernel.h:411-436 | both cases of the first part: the groups admitted, and that the threshold is left at the sentinel exactly if all groups are wanted or the best one scores the sentinel |
| `GroupRouting.PoolContents` | custom_ops/gpu_ops/noauxtc_kernel.h:445-461 | what the admitted groups offer is each of their experts once and nothing else |
| `GroupRouting.OfferGroup` | custom_ops/gpu_ops/noauxtc_kernel.h:449-456 | above the sentinel the queue has seen exactly the experts of the group, whatever the padding of the last batch |
| `GroupRouting.SelectExperts` | custom_ops/gpu_ops/noauxtc_kernel.h:439-467 | the queue ends with the topk best of everything the admitted groups offer |
| `GroupRouting.NoFiller` | custom_ops/gpu_ops/noauxtc_kernel.h:439-467 | with k candidates above the sentinel none of the k answers is padding |
| `GroupRouting.SelectionIsExact` | custom_ops/gpu_ops/noauxtc_kernel.h:439-467 | if the chosen groups have topk experts above the sentinel, the indices are distinct, lie in these groups, are in descending order and dominate every other expert there |
| `GroupRouting.ScoreGroups` | custom_ops/gpu_ops/noauxtc_kernel.h:353-373 | every group has the score the kernel computes, for any scores and group size |
| `GroupRouting.ScoresAbove` | custom_ops/gpu_ops/noauxtc_kernel.h:353-373 | above a positive sentinel that is the sum of its two best members, and above the sentinel itself |
| `GroupRouting.OtherSizesEnd` | custom_ops/gpu_ops/noauxtc_kernel.h:415-434 | unless a group has exactly 32 experts the loop over the group scores ends, whatever the scores |
| `GroupRouting.GroupsOf32CanHang` | custom_ops/gpu_ops/noauxtc_kernel.h:415-434 | a token of three groups of 32 for which no round of the loop reaches the target |
| `GroupRouting.Gather` | custom_ops/gpu_ops/noauxtc_kernel.h:471-483 | the sum is the epsilon plus the unbiased scores of the selected experts |
| `GroupRouting.Reweigh` | custom_ops/gpu_ops/noauxtc_kernel.h:471-507 | every score becomes zero but those of the selected experts, which become their shares of the factor |
| `GroupRouting.WeightsShareFactor` | custom_ops/gpu_ops/noauxtc_kernel.h:471-500 | the weights add up to the factor, short of what the epsilon takes |
| `GroupRouting.EpsilonTakesLittle` | custom_ops/gpu_ops/noauxtc_kernel.h:471-500 | the selected scores share out the factor by their sum and 1e-20; if they sum to at least 1 the weights fall short of it by at most 1e-20 of it |
| `GroupRouting.PositiveIsRoutable` | custom_ops/gpu_ops/noauxtc_kernel.h:376-554 | biased scores above a positive sentinel, nonnegative scores and enough experts in the wanted groups meet all that RouteToken asks |
| `GroupRouting.ChooseExperts` | custom_ops/gpu_ops/noauxtc_kernel.h:411-467 | the experts are the best of the admitted groups, which are the best groups if and only if no group scores exactly the sentinel or enough share the largest score; the kernel goes on to use them unless all groups are wanted or the best one scores the sentinel |
| `GroupRouting.RouteToken` | custom_ops/gpu_ops/noauxtc_kernel.h:376-554 | one token: exactly the best experts of the admitted groups with their shares as weights, these groups being the best ones under the same exact condition; the fallback when all groups are admitted |
| `ImageStream.TokensAreWholeImages` | custom_ops/gpu_ops/get_mm_split_fuse.cc:70-80 | at a position that splits no image the image tokens before it are those of whole images |
| `ImageStream.BoundaryIsOutside` | custom_ops/gpu_ops/get_mm_split_fuse.cc:47-63 | the end of a text run or of an image splits no image |
| `ChunkSplit.GetImgBoundaries` | custom_ops/gpu_ops/get_img_boundaries.cc:25-43 | the listed positions are 0 and exactly the ends of text runs and images, in order, each with the number of images that end by it |
| `ChunkSplit.MarkCuts` | custom_ops/gpu_ops/get_mm_split_fuse.cc:44-63 | the map marks exactly the ends of text runs and images |
| `ChunkSplit.ScansAgree` | custom_ops/gpu_ops/get_mm_split_fuse.cc:47-63 | the marked positions are exactly the nonzero positions the other scan lists |
| `ChunkSplit.CountImages` | custom_ops/gpu_ops/get_mm_split_fuse.cc:72-121 | adding up image lengths until the tokens of the chunk are reached counts its images |
| `ChunkSplit.NextMark` | custom_ops/gpu_ops/get_mm_split_fuse.cc:108-110 | the search ends at the first marked position, and the entries the map lookup inserts mark nothing |
| `ChunkSplit.SplitFuse` | custom_ops/gpu_ops/get_mm_split_fuse.cc:65-128 | every chunk is nonempty and ends at the first position from the text size on that is a boundary or lies inside a text run, or with the prompt; none cuts an image, and each image count is exact |
| `ChunkSplit.ChunksDetermined` | custom_ops/gpu_ops/get_mm_split_fuse.cc:65-128 | these conditions leave one way to cut a prompt |
| `ChunkSplit.ChunksAddUp` | custom_ops/gpu_ops/get_mm_split_fuse.cc:65-128 | the first n chunks cover the prompt up to the n-th cut and hold exactly the images before it |
| `ChunkSplit.ChunksConserve` | custom_ops/gpu_ops/get_mm_split_fuse.cc:65-128 | chunk lengths add up to the prompt, image counts to the number of images |
| `ChunkSplit.CountsAgree` | custom_ops/gpu_ops/get_mm_split_fuse.cc:65-128 | the running image count equals what the boundary scan lists at the greatest boundary not beyond the cut |
| `MoeTopK.ThreadRound` | custom_ops/iluvatar_ops/fused_moe_op.h:271-289 | one thread ends with the best of its remaining experts, a prior winner changing nothing |
| `MoeTopK.BlockRound` | custom_ops/iluvatar_ops/fused_moe_op.h:270-292 | whatever the striding and the reduction tree, a round finds the best remaining expert or the floor |
| `MoeTopK.RoundIsRight` | custom_ops/iluvatar_ops/fused_moe_op.h:270-299 | after right rounds a round is right exactly if the expert due beats the floor or is expert 0 |
| `MoeTopK.SelectRow` | custom_ops/iluvatar_ops/fused_moe_op.h:270-299 | the k indices are the first k experts by compared value, then index, if and only if each of them clears the floor |
| `MoeTopK.SelectExperts` | custom_ops/iluvatar_ops/fused_moe_op.h:246-301 | with and without a correction bias: with scores above -1 each chosen expert has a score plus bias no less than that of every expert not chosen up to then, and a smaller index where they are equal; what is stored is its score without the bias |
| `MoeTopK.LaterIsBeaten` | custom_ops/iluvatar_ops/fused_moe_op.h:270-299 | in the order of the experts each chosen one comes before every expert not chosen up to then |
| `MoeTopK.InOrderDistinct` | custom_ops/iluvatar_ops/fused_moe_op.h:280-286 | the k indices are distinct |
| `MoeTopK.EveryPlaceTaken` | custom_ops/iluvatar_ops/fused_moe_op.h:270-299 | every place of that order belongs to some expert, so k distinct indices exist |
| `MoeTopK.ProbabilitiesClear` | custom_ops/iluvatar_ops/fused_moe_op.h:272 | scores above -1 clear the floor as long as k is at most the number of experts |
| `MoeTopK.BelowFloorFails` | custom_ops/iluvatar_ops/fused_moe_op.h:272 | two experts below the floor: the first round answers expert 0 though expert 1 is the better one |
| `MoeGrouped.GroupSoftmax` | custom_ops/iluvatar_ops/fused_moe_op.h:61-133 | the row is the group's softmax divided by its maximum, and the stored factor undoes that |
| `MoeGrouped.SoftmaxShares` | custom_ops/iluvatar_ops/fused_moe_op.h:85-117 | the probabilities of a group add up to 1, and two of them are to each other as the exponentials of their logits less the largest logit |
| `MoeGrouped.MaximaAreOne` | custom_ops/iluvatar_ops/fused_moe_op.h:112-132 | a normalised group is 1 exactly at its maxima, and dividing by the factor restores the softmax |
| `MoeGrouped.NormaliseRow` | custom_ops/iluvatar_ops/fused_moe_op.h:624-634 | all groups of a row are normalised, each by its own maximum |
| `MoeGrouped.OnesAreLargest` | custom_ops/iluvatar_ops/fused_moe_op.h:94-132 | the ones of a normalised group are exactly its largest logits |
| `MoeGrouped.OnePerGroupExactly` | custom_ops/iluvatar_ops/fused_moe_op.h:159-190 | the k rounds choose a 1 of each group in group order if and only if every group but the last holds a single 1 |
| `MoeGrouped.RowConditions` | custom_ops/iluvatar_ops/fused_moe_op.h:94-188 | both sides of that condition are conditions on the logits |
| `MoeGrouped.RouteRow` | custom_ops/iluvatar_ops/fused_moe_op.h:159-644 | round i chooses the expert with the largest logit of group i, and stores its own softmax probability, if and only if every group but the last has a single largest logit |
| `MoeGrouped.TiedRowFails` | custom_ops/iluvatar_ops/fused_moe_op.h:159-190 | two groups of two equal logits each: both rounds choose from the first group |
| `MoePermute.WriteSourceRows` | custom_ops/iluvatar_ops/fused_moe_op.h:294-297 | every round of every row names its own expanded row |
| `MoePermute.RowsDistinct` | custom_ops/iluvatar_ops/moe_dispatch.cu:147-155 | carried through any sort the expanded rows stay distinct and in range |
| `MoePermute.InitializeRouting` | custom_ops/iluvatar_ops/fused_moe_op.h:698-720 | the stored map inverts the order of the sort, and every destination row is a copy of its source row |
| `MoePermute.FindTotalEltsLeqTarget` | custom_ops/iluvatar_ops/fused_moe_op.h:764-779 | the binary search counts the elements not above the target, and those are the leading ones |
| `MoePermute.TotalRowsBeforeExpert` | custom_ops/iluvatar_ops/moe_dispatch.cu:27-48 | one such count for each expert |
| `MoePermute.RunExperts` | custom_ops/iluvatar_ops/w8a16_group_gemm.cu:102-172 | the segments between consecutive totals hand every permuted row to the expert it is sorted under; the product itself is a parameter |
| `MoePermute.Layer.FinalizeElement` | custom_ops/iluvatar_ops/fused_moe_op.h:804-835 | the loop over the rounds, gathering through the inverse map, computes the element that the next two rows describe |
| `MoePermute.Layer.ElementIsSum` | custom_ops/iluvatar_ops/fused_moe_op.h:808-833 | that element is the sum over the rounds of weight times biased expert output, per weight if the weights are normalised, times the factor |
| `MoePermute.Layer.SingleExpert` | custom_ops/iluvatar_ops/fused_moe_op.h:808-833 | with one expert a row it is that expert's biased output times its weight and the factor, without the weight if it is normalised away |
| `MoePermute.Layer.PipelineRoutes` | custom_ops/iluvatar_ops/fused_moe_op.h:698-720 | for every key-sorting permutation, round k of row r ends up computed by its own expert from row r |
| `MoePermute.Layer.Dispatch` | custom_ops/iluvatar_ops/moe_dispatch.cu:133-175 | the stages after the sort leave every expanded row so computed |
| `MoePermute.Layer.Forward` | custom_ops/iluvatar_ops/fused_moe_op.h:698-835 | routing, permuting, computing and reducing give in every row and column the direct weighted sum over the row's own experts |
| `LayerwiseSend.BumpKeeps` | custom_ops/gpu_ops/remote_cache_kv_ipc.cc:28-39 | starting a step keeps the invariant: all earlier steps complete, the reader's first copy still true or -1 |
| `LayerwiseSend.CompleteKeeps` | custom_ops/gpu_ops/remote_cache_kv_ipc.cc:108-115 | so does the completion of a layer |
| `LayerwiseSend.ReliableExactly` | fastdeploy/cache_manager/cache_messager.py:212-226 | a pair of copies can be relied on if and only if the layer copy is not ahead of what the step read after it has completed; otherwise the layer it names has not been completed in that step |
| `LayerwiseSend.ReadStepKeeps` | fastdeploy/cache_manager/cache_messager.py:212-226 | taking such a pair into use keeps the invariant |
| `LayerwiseSend.RequestReady` | fastdeploy/cache_manager/cache_messager.py:227-257 | the layers a request is about to be sent are complete in its own step |
| `LayerwiseSend.LayerSent` | fastdeploy/cache_manager/cache_messager.py:259-267 | writing a complete layer extends what was sent after completion |
| `LayerwiseSend.NextKeeps` | fastdeploy/cache_manager/cache_messager.py:190-302 | every step of producer and sender keeps the invariant |
| `LayerwiseSend.LayerwiseSendIsSafe` | fastdeploy/cache_manager/cache_messager.py:190-302 | in every run without wrap-around in which no pair that was used is torn, whatever is reported finished had every layer written after its completion in the request's step |
| `LayerwiseSend.RequestIsFinished` | fastdeploy/cache_manager/cache_messager.py:212-300 | in every run without wrap-around: a ready request of an earlier step that is there when the sender reads the words is finished before the sender polls again, whatever the producer does meanwhile |
| `LayerwiseSend.OneStoreBetweenIsEnough` | fastdeploy/cache_manager/cache_messager.py:212-218 | at most one producer store between the two reads of a pair that is used leaves no pair torn |
| `LayerwiseSend.TwoStoresBetweenAreTooMany` | fastdeploy/cache_manager/cache_messager.py:212-218 | a run with two stores between the reads that reports a request finished before its layer was complete |
| `LayerwiseSend.CacheMessager.Deliver` | fastdeploy/cache_manager/cache_messager.py:194-211 | the loop over the delivered infos updates the dictionary entry by entry, as the next two rows describe |
| `LayerwiseSend.KnownRequest` | fastdeploy/cache_manager/cache_messager.py:196-209 | a delivery for a known request replaces what it brings; once both lists are there the request is ready and keeps as many of its last source blocks as there are destination blocks, or all if there are none or more of these |
| `LayerwiseSend.BothDelivered` | fastdeploy/cache_manager/cache_messager.py:194-211 | a new request whose lists arrive in two deliveries, in either order and among any others, is left ready with those blocks |
| `LayerwiseSend.CacheMessager.ServeRequest` | fastdeploy/cache_manager/cache_messager.py:227-300 | one pass over a request writes the layers from its own index on, then finishes or remembers how far it came |
| `LayerwiseSend.PassSends` | fastdeploy/cache_manager/cache_messager.py:227-300 | a pass over a ready request whose step is over or complete writes all the layers left, in order, then finishes and forgets it; in its own incomplete step it writes the layers up to the prefilled one and remembers how far it came; before its step nothing |
| `LayerwiseSend.DeliverFollowsCode` | fastdeploy/cache_manager/cache_messager.py:194-211 | the loop over the delivered infos is a sequence of Receive transitions |
| `LayerwiseSend.ServeFollowsCode` | fastdeploy/cache_manager/cache_messager.py:227-300 | a pass over a request is a Serve transition and Write transitions with the same events and the same dictionary |
| `LayerwiseSend.WritesFollowCode` | fastdeploy/cache_manager/cache_messager.py:259-299 | the loop over its layers is a sequence of Write transitions |
| `LockStepLoop.PutKeeps` | fastdeploy/inter_communicator/engine_cache_queue.py:216-229 | every step of put_transfer_task keeps the invariant of the main loops, the polling and the later append included, unless the append overtakes a read |
| `LockStepLoop.AppendExactly` | fastdeploy/inter_communicator/engine_cache_queue.py:221-227 | appending with the lock keeps the invariant if and only if nobody is in the middle of reading |
| `LockStepLoop.GetKeeps` | fastdeploy/inter_communicator/engine_cache_queue.py:231-249 | so does a rank reading the head, the last reader taking it off |
| `LockStepLoop.ArriveOpens` | fastdeploy/cache_manager/cache_transfer_manager.py:299-342 | so does the arrival that opens a barrier, everybody else waiting there |
| `LockStepLoop.ResetKeeps` | fastdeploy/cache_manager/cache_transfer_manager.py:300-344 | so does a reset |
| `LockStepLoop.NobodyWaits` | fastdeploy/cache_manager/cache_transfer_manager.py:300-344 | a barrier is reset only while nobody waits to get in |
| `LockStepLoop.NextKeeps` | fastdeploy/cache_manager/cache_transfer_manager.py:291-346 | every step of every rank and of every put keeps the invariant, as long as no append overtakes a read |
| `LockStepLoop.NothingBreaks` | fastdeploy/cache_manager/cache_transfer_manager.py:291-346 | no barrier is broken and no rank that saw the signal is left without a task |
| `LockStepLoop.SameBranch` | fastdeploy/cache_manager/cache_transfer_manager.py:302-335 | in a round no rank takes the task while another skips |
| `LockStepLoop.SameTask` | fastdeploy/cache_manager/cache_transfer_manager.py:303-335 | ranks that hold a task hold the same one |
| `LockStepLoop.GivenAgree` | fastdeploy/cache_manager/cache_transfer_manager.py:302-334 | of what two ranks have taken since the start one is a beginning of the other |
| `LockStepLoop.NextPends` | fastdeploy/cache_manager/cache_transfer_manager.py:291-342 | no step forgets a task that rank 0 is about to see or that a round is taking |
| `LockStepLoop.BetweenRounds` | fastdeploy/cache_manager/cache_transfer_manager.py:291-342 | between the rounds every rank has been given all that was taken off the queue |
| `LockStepLoop.SomebodyCanAct` | fastdeploy/cache_manager/cache_transfer_manager.py:291-346 | under the invariant some rank can always act |
| `LockStepLoop.HalfRoundEnds` | fastdeploy/cache_manager/cache_transfer_manager.py:291-342 | in whatever order the ranks act, the part of a round before or after barrier1 is over after 7 n steps |
| `LockStepPool.At2Opens` | fastdeploy/cache_manager/cache_transfer_manager.py:256-284 | when the second swap barrier opens every rank has transferred the task of the round |
| `LockStepPool.NobodyInside` | fastdeploy/cache_manager/cache_transfer_manager.py:247-286 | rank 0 resets a swap barrier only while nobody waits to get in |
| `LockStepPool.WorkKeeps` | fastdeploy/cache_manager/cache_transfer_manager.py:234-290 | every step of a worker keeps the invariant of its pool |
| `LockStepPool.SameTransfer` | fastdeploy/cache_manager/cache_transfer_manager.py:249-283 | ranks between the two swap barriers work on the same task |
| `LockStepPool.HistoryKeeps` | fastdeploy/cache_manager/cache_transfer_manager.py:234-290 | each rank transfers, and rank 0 signals, exactly the submitted tasks in order |
| `LockStepPool.CloseTogether` | fastdeploy/cache_manager/cache_transfer_manager.py:246-288 | the ranks are never more than one transfer apart and no signal is ahead |
| `LockStepPool.SomebodyCanWork` | fastdeploy/cache_manager/cache_transfer_manager.py:234-290 | when no worker can go on, all are at the same task and one of them has nothing more submitted to it |
| `LockStepPool.PoolComesToRest` | fastdeploy/cache_manager/cache_transfer_manager.py:234-290 | in whatever order the workers act, after nine steps for each task of each rank none of them can go on |
| `LockStep.SubmittedAgree` | fastdeploy/cache_manager/cache_transfer_manager.py:318-334 | what the ranks submit to the pools of one direction agrees position by position |
| `LockStep.SystemNextKeeps` | fastdeploy/cache_manager/cache_transfer_manager.py:234-346 | every step of every thread of every rank keeps the whole invariant, as long as no append overtakes a read |
| `LockStep.NoBarrierBreaks` | fastdeploy/cache_manager/cache_transfer_manager.py:234-346 | in every run, as long as no append has overtaken a read, none of the seven barriers is broken by a reset |
| `LockStep.LoopsInStep` | fastdeploy/cache_manager/cache_transfer_manager.py:291-346 | as long as no append has overtaken a read, all ranks take the same branch and read the same task |
| `LockStep.NothingIsLost` | fastdeploy/inter_communicator/engine_cache_queue.py:216-249 | in every run the tasks put so far are those taken off the queue followed by those in it |
| `LockStep.TakenInOrder` | fastdeploy/cache_manager/cache_transfer_manager.py:291-334 | as long as no append has overtaken a read: each rank is given the tasks in the order they were put, none twice, and between the rounds with an empty queue all of them |
| `LockStep.RoundTakesTask` | fastdeploy/cache_manager/cache_transfer_manager.py:291-342 | as long as no append has overtaken a read: a task in the queue when rank 0 looks has been given to every rank by the end of the round that follows |
| `LockStep.DirectionsShare` | fastdeploy/cache_manager/cache_transfer_manager.py:318-334 | the submissions to the two pools are together the tasks taken, each in the pool of its direction and in order |
| `LockStep.TransfersInStep` | fastdeploy/cache_manager/cache_transfer_manager.py:234-290 | as long as no append has overtaken a read: in each direction, the ranks transfer the same sequence, at most one task apart, and each done signal follows that task's transfer on all ranks |
| `LockStep.LoopsGoOn` | fastdeploy/cache_manager/cache_transfer_manager.py:291-346 | as long as no append has overtaken a read, some main loop can always go on |
| `LockStep.PoolFinishes` | fastdeploy/cache_manager/cache_transfer_manager.py:234-290 | as long as no append has overtaken a read: when all ranks have taken the same tasks and no worker of a pool can go on, every task submitted to it has been transferred on every rank and signalled, in order |
| `LockStep.NothingIsLeft` | fastdeploy/cache_manager/cache_transfer_manager.py:234-334 | when that holds of both pools, the transfers of each rank are together the tasks taken, each in the pool of its direction and in order, and so are the signals |
| `LockStepOvertaken.OvertakenComesApart` | fastdeploy/inter_communicator/engine_cache_queue.py:221-227 | a run of two ranks in which an append overtakes a read: one rank takes the same task twice while the other takes the next one |
| `LockStepOvertaken.OvertakenGetsStuck` | fastdeploy/inter_communicator/engine_cache_queue.py:221-227 | another in which both ranks wait for ever at different barriers |
| `RaggedBatch.PreProcessCumulates` | fastdeploy/model_executor/pre_and_post_process.py:105-107 | the cumulated paddings are what the packing assumes |
| `RaggedBatch.SlotsAreDistinct` | custom_ops/cpu_ops/get_padding_offset.cc:23-29 | no two positions of the batch share a packed slot, and every slot has a position |
| `RaggedBatch.GetPaddingOffsetKernel` | custom_ops/cpu_ops/get_padding_offset.cc:32-52 | padding_offset leads each packed token back to its place, cu_seqlens are the prefix sums of the lengths, cum_offsets_out the padding before each row |
| `RaggedBatch.RemovePadding` | custom_ops/cpu_ops/get_padding_offset.cc:17-30 | the packed tokens are those of the rows one after the other, and slots 0, 1, 2, ... are written once each in that order |
| `RaggedBatch.GetPaddingOffset` | custom_ops/cpu_ops/get_padding_offset.cc:54-96 | the four tensors together |
| `RaggedBatch.Batch.ReadsLast` | custom_ops/cpu_ops/rebuild_padding.cc:36-50 | the token read is the row's last if and only if the row is a whole prompt or one decoded token |
| `RaggedBatch.TwoDecodedTokensFail` | custom_ops/cpu_ops/rebuild_padding.cc:46-50 | a row of two decoded tokens, of which the first is read |
| `RaggedBatch.Batch.DropsTheRest` | custom_ops/cpu_ops/rebuild_padding.cc:117-124 | the sizing loop leaves as many rows as there are tokens to keep |
| `RaggedBatch.RebuildPaddingImpl` | custom_ops/cpu_ops/rebuild_padding.cc:25-54 | every element of an active row is the feature of the token read for it, every other element as it was |
| `RaggedBatch.RebuildAppendPaddingImpl` | custom_ops/cpu_ops/rebuild_padding.cc:57-88 | the same for output tokens found through the output padding offsets |
| `RaggedBatch.RebuildPadding` | custom_ops/cpu_ops/rebuild_padding.cc:90-205 | both variants with their output sizes, inactive rows zero |
| `RaggedBatch.PackAndRebuild` | custom_ops/cpu_ops/rebuild_padding.cc:25-54 | packing, any function per token and rebuilding give each active row the function of its token in the padded batch, each inactive row zeros |
| `RaggedBatch.RowByLengths` | custom_ops/cpu_ops/rebuild_padding.cc:36-53 | which token that is by the three lengths of the row: none, hence zeros, without tokens or with neither encoder nor decoder length; token encoder - 1 in the encoder, the first in the decoder |
| `RaggedBatch.YieldsLastToken` | custom_ops/cpu_ops/rebuild_padding.cc:36-53 | a whole prompt and a single decoded token yield what is computed from the row's last token |
| `RaggedBatch.PackAndAppend` | custom_ops/cpu_ops/rebuild_padding.cc:57-88 | the same end to end for the appending variant |
| `RaggedBatch.RepeatsTheFirst` | custom_ops/cpu_ops/rebuild_padding.cc:76-81 | an output token of a decoded row stands for itself if and only if it is the first of its row |
| `FlatRows.WriteInRow` | custom_ops/cpu_ops/set_value_by_flags.cc:29-34 | a write into row b of a flat buffer changes that place of that row only |
| `DecodeKernels.SetValueByFlagAndId` | custom_ops/cpu_ops/set_value_by_flags.cc:17-39 | every unstopped row records its newest input token at its step, every other row is unchanged |
| `DecodeKernels.IsInEnd` | custom_ops/cpu_ops/stop_generation_multi_ends.cc:21-29 | the search loop decides membership |
| `DecodeKernels.SetValueByFlags` | custom_ops/cpu_ops/stop_generation_multi_ends.cc:31-55 | tokens, next tokens and stop flags of all rows; a flag is only ever set, and set exactly on an end token |
| `DecodeKernels.UpdateInputs` | custom_ops/cpu_ops/update_inputs.cc:16-47 | lengths, next inputs, and that the loop need not stop if and only if fewer than stop_nums rows are stopped |
| `DecodeKernels.ShareInputs.constructor` | fastdeploy/worker/gpu_model_runner.py:617-691 | the buffers start with every row stopped and empty |
| `DecodeKernels.ShareInputs.InsertPrefill` | fastdeploy/worker/gpu_model_runner.py:423-518 | a request gets a fresh row, all other rows keep theirs |
| `DecodeKernels.ShareInputs.CountSteps` | fastdeploy/model_executor/pre_and_post_process.py:196-208 | steps are counted and rows at their limit stopped |
| `DecodeKernels.ShareInputs.Step` | fastdeploy/model_executor/pre_and_post_process.py:196-266 | one round changes every row of the flat buffers as the row model says, and keeps all indices in range for the next |
| `DecodeRow.AfterRounds` | custom_ops/cpu_ops/update_inputs.cc:28-46 | after n rounds a request goes on if and only if no end token came and its limit is not reached; then its encoder length is 0, this-time length 1, decoder length prompt + n - 1, its next input the latest token and its history exact; otherwise its lengths are zero |
| `DecodeRow.StaysStopped` | custom_ops/cpu_ops/stop_generation_multi_ends.cc:39-54 | a stopped row stays stopped with its history, its lengths zero |
| `DecodeRow.EmittedAt` | custom_ops/cpu_ops/stop_generation_multi_ends.cc:40-49 | a request puts out the sampled tokens while it goes on, the first end token where its limit stops it, and -1 ever after |
| `DecodeRow.HistorySeen` | custom_ops/cpu_ops/set_value_by_flags.cc:26-38 | the history the penalties see: the last token of the prompt, then everything generated, then -1 |
| `DecodeRuns.RunIsRounds` | fastdeploy/model_executor/pre_and_post_process.py:196-266 | in every run of the batch each row goes its own way |
| `DecodeRuns.RequestInRun` | custom_ops/cpu_ops/update_inputs.cc:28-46 | the claims about a request hold in every run of the batch |
| `DecodeRuns.StopsAreFinal` | custom_ops/cpu_ops/update_inputs.cc:30-46 | a stop flag never clears, and once the loop need not go on it need never again |
| `DecodeRuns.GoesOnWithTheLast` | custom_ops/cpu_ops/update_inputs.cc:44-46 | with stop_nums the batch size the loop goes on exactly as long as some row does |
| `TokenPenalty.CountRow` | custom_ops/cpu_ops/token_penalty_multi_scores.cc:49-56 | the counts of a row go up by the occurrences before the first negative entry, other rows unchanged |
| `TokenPenalty.UpdateRepeatTimes` | custom_ops/cpu_ops/token_penalty_multi_scores.cc:38-58 | so for all rows, skipped ones unchanged |
| `TokenPenalty.CountsHistory` | custom_ops/cpu_ops/token_penalty_multi_scores.cc:44-57 | in every round of a request the count of a token is its multiplicity in the last prompt token and everything generated |
| `TokenPenalty.BanBadWords` | custom_ops/cpu_ops/token_penalty_multi_scores.cc:88-103 | exactly the listed tokens inside the vocabulary get -1e10, in every row |
| `Base64.FindsLetter` | custom_ops/gpu_ops/helper.h:344-345 | no letter occurs twice: looking up the letter of a sextet gives the sextet |
| `Base64.LetterBack` | custom_ops/gpu_ops/helper.h:402-410 | every letter passes the decoder's filter and is looked up to what it stands for |
| `Base64.AcceptedIsLetter` | custom_ops/gpu_ops/helper.h:408-410 | the decoder goes on exactly over the letters of the alphabet |
| `Base64.JoinSplit` | custom_ops/gpu_ops/helper.h:360-417 | splitting three octets and joining the four sextets gives the octets back, modulo 256 |
| `Base64.SplitIsBase64` | custom_ops/gpu_ops/helper.h:360-364 | the four sextets read in base 64 are the three octets read in base 256 |
| `Base64.JoinTail` | custom_ops/gpu_ops/helper.h:437-440 | the octets put out before the padding do not depend on what the fillers are looked up to |
| `Base64.TailBack` | custom_ops/gpu_ops/helper.h:374-446 | both padded tails decode to exactly their octets |
| `Base64.RoundTrip` | custom_ops/gpu_ops/helper.h:348-450 | decoding undoes encoding for every string of octets, and the code has 4 * ceil(n / 3) characters |
| `Base64.CodeOfGroup` | custom_ops/gpu_ops/helper.h:348-370 | in the code of any string each group of four letters, read in base 64, is its three octets read in base 256 |
| `Base64.CodeOfTail` | custom_ops/gpu_ops/helper.h:374-393 | one or two octets after whole groups add to their code two or three letters that read so, with zeros for what is missing, then two or one '=' |
| `Base64.Base64Encode` | custom_ops/gpu_ops/helper.h:348-396 | the loop with its buffer computes the code |
| `Base64.Base64Decode` | custom_ops/gpu_ops/helper.h:399-450 | so does the decoding loop, stopping at the first character it does not accept |
| `CaptureTable.GraphOptimizationConfig.InitWithCudagraphSize` | fastdeploy/config.py:591-619 | the nested loops fill a table that covers everything from 0, or the least size below it, to the greatest, and holds ceilings |
| `CaptureTable.GraphOptimizationConfig.FillRange` | fastdeploy/config.py:614-618 | one range of the table, nothing else changed |
| `CaptureTable.CoversFromZero` | fastdeploy/config.py:612-619 | the table covers exactly 0 to the greatest size if and only if no size is negative |
| `CaptureTable.LeastUpperBound` | fastdeploy/config.py:612-619 | 0 stays 0, every other batch size gets the least captured size that can hold it |
| `CaptureTable.IsMonotone` | fastdeploy/config.py:612-619 | the table is monotone |
| `CaptureTable.IsIdempotent` | fastdeploy/config.py:612-619 | and idempotent |
| `CaptureTable.GraphOptimizationConfig.SetCudagraphSizes` | fastdeploy/config.py:621-634 | the default sizes in ascending order: 1, 2, 4, the multiples of 8, 16 and 32 in their ranges, and the number of sequences |
| `CaptureTable.DefaultPadding` | fastdeploy/config.py:621-634 | with the default sizes and 1 to 256 sequences a padded size is below twice the real one, the padding at most 7 up to 128 and at most 15 above |

## Left out

- Rounding: floats are reals without NaN and infinities; the sentinel, the epsilon and -1e10 are numbers like others, and `exp` is abstract.
- Integer widths: indices and lengths are unbounded; only the step counter's wrap at 100003 and the octet arithmetic of the codec are modelled.
- `load_sorted`, `dump` and the instantiations with `greater` false of the warp-level sort are not modelled.
- `WarpSort.MergeExchange`: the partner lane `lane ^ stride` is written as lane plus or minus the stride, which is the same for strides that are powers of two.
- `GroupRouting.RouteToken`: asks that the loop over the groups ends, that the admitted groups hold `topk` experts above the sentinel, since the source reads index registers it never set otherwise, and that the sum of the selected scores is not zero.
- `MoeTopK.SelectRow`: `thread_kvp` of a prior winner is the thread's best so far, as in the source; the fused softmax kernels that repeat this selection are not modelled.
- `MoePermute.Layer.Forward`: the expert network is a function of expert and row; the grouped matrix products and their kernel generators are left out.
- `ChunkSplit.SplitFuse`: expects a well-formed prompt, image blocks in grid order with at least one token each and exact prefix counts; the parameters the source does not use are dropped.
- `LayerwiseSend.LayerwiseSendIsSafe`: assumes `write_cache` and `connect` succeed. After a failed write the source can still report "finished", so no single final status is claimed there.
- `LayerwiseSend.LayerwiseSendIsSafe`: does not claim that a layer is written once; `layer_idx` can fall back when the layer word is reset just before the step word advances.
- `LayerwiseSend.BumpKeeps`: a step starts after the last layer of the one before is complete, and the step flag kept for speculative decoding is off; the source does not enforce the first, and steps of requests are numbered from 0.
- `LayerwiseSend.CacheMessager.ServeRequest`: one rank; the barrier shared by the ranks does not name the request, so no order between ranks is claimed.
- `LockStep.LoopsInStep`: from the first append that overtakes a read nothing is claimed; the two runs of `LockStepOvertaken` show why.
- `LockStep.SystemNextKeeps`: exceptions in a main loop and in a transfer are not modelled; barriers are cyclic, and a reset breaks only those who wait.
- `RaggedBatch.PackAndAppend`: the output padding offsets are taken to lead back as `speculate_get_output_padding_offset` makes them; a decoded row with several kept tokens repeats its first, which is stated as it is.
- `DecodeRuns.RequestInRun`: no request is added while the run lasts; the version 1 scheduler is left out.
- `DecodeKernels.ShareInputs.InsertPrefill`: only a prompt that is processed as a whole; chunked prefill and the start of a decode-only request are left out.
- `DecodeKernels.ShareInputs.Step`: the thinking-budget tensors of multimodal models and the stop sequences of the GPU operator are left out.
- `TokenPenalty.UpdateRepeatTimes`: the minimum-length step and the application of the penalties to the logits are left out; in the latter the temperature scaling of unseen tokens is overwritten.
- `CaptureTable.DefaultPadding`: sizes above 256 are left out; the default list jumps from 256 to 544 there.
- Shared memory, queues, RDMA and IPC copies, threads and logging are stores, queues and atomic steps, or absent.
- The prefix-cache manager, schedulers, model code, attention and matrix kernels, HTTP servers, clients, benchmarks and scripts are not part of this model.
