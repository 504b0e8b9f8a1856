# Junkyard engine core, modelled in Dafny

This project models the sequential bookkeeping at the core of the Junkyard
C++ engine and proves what that code promises. Each component is one Dafny
module (BlitSort is split over seven files):

- **BlitSort** (`code/Core/BlitSort.h`), a port of blitsort/quadsort. The model
  covers the small-array networks (`bubble_sort`, `quad_swap_four`,
  `parity_swap_eight`, `parity_swap_sixteen`, `parity_merge`), `unguarded_insert`
  and `tail_swap`, `partial_backward_merge`, `monobound_binary_first`,
  `trinity_rotation`, `blit_default_partition`, `blit_analyze` and the `BlitSort`
  entry point. These are in-place methods over an `array<int>`. Each is proved
  against specification functions in module `SortSpec` (sorted, permutation of
  a range, stable merge, stable split around a pivot, rotation, descent count).
- **MemPro** (`code/Core/External/mempro/MemPro.cpp`; `code/External/mempro/MemPro.cpp`
  is the same file with the same line numbers). Covered: address obfuscation,
  the 4-byte string padding, the ring buffer with its packed (start, size)
  word, the block bump allocator, the page store, and `CallstackSet`, a
  linear-probing hash set with power-of-two capacity.
- **VirtualFS** (`code/Common/VirtualFS.cpp`). Covered: alias matching and
  path stripping, disk-path resolution, local and remote mounts with duplicate
  checks, FIFO request queues, and the de-duplicated list of changed files.
- **Model baking** (`code/Assets/Model.cpp`, `code/Graphics/Model.cpp`).
  Covered: the sampler and vertex-attribute tables, vertex strides, index
  rebasing and submesh ranges, 16-byte aligned buffer layout, material
  de-duplication, node lookup, texture dependencies and the cache-hash check.
- **Integer geometry** (`code/Core/MathVector.h`, `code/Math/MathVector.h`,
  `code/Core/MathAll.h`). The `int2*`/`recti*` helpers are value functions in
  module `MathVector`. `RectInt`, whose members update the rectangle in place,
  is a class in module `MathAll`.
- **GPU backend** (`code/Graphics/GfxBackend.cpp`, `code/Graphics/GfxBackendVk.cpp`,
  `code/Graphics/Graphics.cpp`, `code/Graphics/GraphicsVk.cpp`). Covered:
  format predicates, the orientation transform, frame-age garbage collection,
  bump allocators, memory-type and queue-family searches, queue merging, the
  free lists rotated by a generation counter, ref-counted layout caches and
  descriptor budget counters.
- **Renderer** (`code/Renderer/Render.cpp`). Covered: the compatible vertex
  layout, the MSAA check, light-culling tile counts and the sentinel fill, the
  geometry-chunk list, sub-chunk arrays and the per-frame reset.

Vulkan, VMA and cgltf objects are opaque handles. Whether a foreign call
succeeds, and any fresh block, page or handle it returns, is a parameter of
the operation that makes the call. Integers are unbounded. Where the source's
fixed width matters (64-bit addresses, the packed ring-buffer word,
`uint32(-1)` results), the model writes it out.

## Model

| member | source | states |
|---|---|---|
| BlitSortNetworks.CompareSwap | code/Core/BlitSort.h:458 | the branchless exchange leaves the array as OrderPair of the old one: the two neighbours in order, nothing else touched |
| BlitSortNetworks.OrderPairPermutes | code/Core/BlitSort.h:458 | ordering a pair inside a range only rearranges that range |
| BlitSortNetworks.BubbleSorts | code/Core/BlitSort.h:447-463 | the three compare-and-swaps put up to three elements in order |
| BlitSortNetworks.BubbleSort | code/Core/BlitSort.h:447-463 | bubble_sort leaves the first n (at most 3) elements ordered and a permutation of the old ones, the rest unchanged |
| BlitSortNetworks.QuadFourSorts | code/Core/BlitSort.h:466-483 | the five compare-and-swaps of the four-element network sort the four elements |
| BlitSortNetworks.QuadFourCrossed | code/Core/BlitSort.h:475-482 | when the middle pair of two ordered pairs is out of order, the last three exchanges put all four in order |
| BlitSortNetworks.QuadSwapFour | code/Core/BlitSort.h:466-483 | quad_swap_four sorts a[lo..lo+4) and only rearranges it |
| BlitSortNetworks.HeadMerge | code/Core/BlitSort.h:522 | one front step writes the merge's next element (the smaller head, the left one on a tie) |
| BlitSortNetworks.TailMerge | code/Core/BlitSort.h:523 | one back step writes the merge's last open element (the larger tail, the right one on a tie) |
| BlitSortNetworks.MiddleMerge | code/Core/BlitSort.h:525-526 | the closing writes fill the two middle places, so the whole destination holds the merge |
| BlitSortNetworks.MiddlePair | code/Core/BlitSort.h:525-526 | the smaller of the two heads and the larger of the two tails are the two middle elements of the merge |
| BlitSortNetworks.MergeBothEnds | code/Core/BlitSort.h:520-526 | the merge built from the front and the merge built from the back of two ordered runs are the same sequence |
| BlitSortNetworks.ParityMerge | code/Core/BlitSort.h:508-527 | parity_merge writes exactly the stable merge of the two ordered runs of length block into dest and touches nothing else of dest |
| BlitSortNetworks.ParityRound | code/Core/BlitSort.h:520-523 | one round of the loop places one more element of the merge from the front and one more from the back, and leaves dest outside the 2 * block places alone |
| BlitSortNetworks.PairsSort | code/Core/BlitSort.h:492-495 | the four pair exchanges leave four ordered runs of two and rearrange only those eight |
| BlitSortNetworks.ParitySwapEight | code/Core/BlitSort.h:486-505 | parity_swap_eight sorts a[lo..lo+8) and only rearranges it, on both the early-return path and the merge path |
| BlitSortNetworks.QuadsSort | code/Core/BlitSort.h:535-538 | four quad_swap_four calls leave four ordered runs of four and rearrange only those sixteen |
| BlitSortNetworks.ParitySwapSixteen | code/Core/BlitSort.h:530-548 | parity_swap_sixteen sorts a[lo..lo+16) and only rearranges it |
| BlitSortNetworks.RunsMeet | code/Core/BlitSort.h:497-500 | four ordered runs whose neighbours meet in order are one ordered run, which justifies the early return |
| BlitSortNetworks.MergeRuns | code/Core/BlitSort.h:61-86 | parity_merge_two / parity_merge_four followed by the final merge: four ordered runs of b become one ordered run holding the same elements |
| BlitSortNetworks.MergeOfMerges | code/Core/BlitSort.h:501-504 | merging the runs pairwise into swap and the halves back sorts and rearranges the four runs |
| BlitSortNetworks.MergeOfMergesSorted | code/Core/BlitSort.h:501-504 | the merge of the pairwise merges of four ordered runs is ordered |
| BlitSortNetworks.MergeOfMergesPermutes | code/Core/BlitSort.h:501-504 | the merge of the pairwise merges of four runs holds exactly their elements |
| BlitSortNetworks.FrontNext | code/Core/BlitSort.h:522 | the merge's next element from the front is the smaller head, the left one on a tie |
| BlitSortNetworks.BackNext | code/Core/BlitSort.h:523 | the merge's next element from the back is the larger tail, the right one on a tie |
| BlitSortNetworks.SwapPermutes | code/Core/BlitSort.h:477 | the unconditional exchange inside quad_swap_four only rearranges its range |
| BlitSortTail.ShiftStep | code/Core/BlitSort.h:424 | one copy of the shifting loop moves one more element up one place |
| BlitSortTail.ShiftedIns | code/Core/BlitSort.h:422-428 | shifting the run up one place and writing the key into the gap is inserting the key there |
| BlitSortTail.InsPermutes | code/Core/BlitSort.h:416-441 | inserting the key only rearranges the range it moves through |
| BlitSortTail.InsertSorts | code/Core/BlitSort.h:430-442 | inserting the key two-at-a-time and then ordering the last pair (line 442) leaves the run one longer and ordered, and a permutation |
| BlitSortTail.InsertPermutes | code/Core/BlitSort.h:416-442 | the insertion followed by the final exchange only rearranges the range the key moves through |
| BlitSortTail.AboveKeyIsHigh | code/Core/BlitSort.h:418 | when the key is at least the run's second element, the pairwise loop stops before running off the run (why no bound check is needed) |
| BlitSortTail.CopyDown | code/Core/BlitSort.h:424 | `*end-- = *pta--` moves the element below end up onto end, nothing else changes |
| BlitSortTail.ShiftAll | code/Core/BlitSort.h:418-429 | the branch for a key below the run's second element shifts the whole run up and puts the key at lo+1 |
| BlitSortTail.ShiftPairs | code/Core/BlitSort.h:430-441 | the pairwise branch shifts the elements above the key two per round and places the key just above the first element at most the key |
| BlitSortTail.PairLoop | code/Core/BlitSort.h:432-437 | the do-while stops with the cursor on an element at most the key, with the element two places up above the key, having moved everything between up one place |
| BlitSortTail.PairStep | code/Core/BlitSort.h:434-437 | one round and its test: the loop goes on exactly when the element below the cursor is above the key, which cannot be below lo + 2 |
| BlitSortTail.PairRound | code/Core/BlitSort.h:434-435 | one round of the pairwise loop moves two elements up one place |
| BlitSortTail.PlaceKey | code/Core/BlitSort.h:439-440 | `end[0] = end[1]; end[1] = key` writes the key just above end |
| BlitSortTail.PlacedKey | code/Core/BlitSort.h:439-440 | what the two writes leave is the key inserted just above end |
| BlitSortTail.InsertOne | code/Core/BlitSort.h:409-442 | one outer round: the element at lo+i joins the ordered run before it, the range stays a permutation |
| BlitSortTail.InsertKey | code/Core/BlitSort.h:416-442 | a key below the run's last element is shifted into place by whichever branch applies: the run is then in order and a permutation of the original range |
| BlitSortTail.OrderInserted | code/Core/BlitSort.h:442 | the final branchless exchange of end and end + 1 leaves the run in order and a permutation of the original range |
| BlitSortTail.UnguardedInsert | code/Core/BlitSort.h:402-444 | given an ordered prefix of length offset >= 2, unguarded_insert leaves a[lo..lo+n) ordered and a permutation of what it held |
| BlitSortTail.NetworkSort | code/Core/BlitSort.h:558-571 | the network tail_swap picks for 4, 8 or 16 elements sorts that prefix and only rearranges it |
| BlitSortTail.TailSwap | code/Core/BlitSort.h:551-572 | tail_swap leaves a[..n) ordered and a permutation of the old contents, whatever n below the array length |
| BlitSortMerge.PartialBackwardMerge | code/Core/BlitSort.h:997-1042 | merging a[lo..lo+block) and a[lo+block..lo+nmemb) in place through swap leaves exactly their stable merge there and nothing else of a changed |
| BlitSortMerge.BackMergeRuns | code/Core/BlitSort.h:1010-1041 | the three loops of partial_backward_merge, from the copied right run, build the merge from the top down |
| BlitSortMerge.BackPair | code/Core/BlitSort.h:1014-1031 | one round of the paired loop places two (or, when the runs cross, three) more elements of the merge from the top |
| BlitSortMerge.BackTwoLeft | code/Core/BlitSort.h:1016-1020 | two left elements above the right top are the merge's next two from the top |
| BlitSortMerge.BackTwoRight | code/Core/BlitSort.h:1021-1025 | two right elements at least the left top are the merge's next two from the top |
| BlitSortMerge.BackCross | code/Core/BlitSort.h:1026-1030 | where the runs cross within the pair, the two branchless exchanges place the merge's next elements |
| BlitSortMerge.BackCrossFirst | code/Core/BlitSort.h:1028 | the first exchange places the two tops, the larger above |
| BlitSortMerge.BackCrossSecond | code/Core/BlitSort.h:1029 | the second exchange places the larger of the next two tops and consumes only it |
| BlitSortMerge.BackOne | code/Core/BlitSort.h:1033-1036 | one step of the single loop places the larger top, the right one on a tie |
| BlitSortMerge.BackRest | code/Core/BlitSort.h:1038-1041 | once the left run is used up, the right run's rest goes to the bottom and the merge is complete |
| BlitSortMerge.BackCrossNext | code/Core/BlitSort.h:1028-1029 | where the tops cross, the two top places of the merge are the two tops, the larger above |
| BlitSortMerge.BackDone | code/Core/BlitSort.h:1033-1041 | when the right run is used up the left run's rest already sits where the merge puts it |
| BlitSortMerge.MonoboundBinaryFirst | code/Core/BlitSort.h:1206-1229 | in an ordered run of top >= 1 elements, the result r splits it: everything before r is below value, everything from r on is at least value |
| BlitSortRotate.RotatedAt | code/Core/BlitSort.h:1071-1203 | the rotated window read element by element: position q of the window holds the element from q + left, or from q - (nmemb - left) |
| BlitSortRotate.WindowRotated | code/Core/BlitSort.h:1071-1203 | once the rotation is written over the whole window, the array is the rotated one |
| BlitSortRotate.TrinityRotation | code/Core/BlitSort.h:1071-1203 | trinity_rotation leaves a equal to the old a with a[lo..lo+nmemb) rotated left by left, in every branch and for every swap size |
| BlitSortRotate.RotateThroughSwapLeft | code/Core/BlitSort.h:1077-1082 | left part fits in swap: the window ends rotated |
| BlitSortRotate.RotateThroughSwapRight | code/Core/BlitSort.h:1135-1140 | right part fits in swap: the window ends rotated |
| BlitSortRotate.MovesLeft | code/Core/BlitSort.h:1079-1081 | the three copies leave the right part at the bottom of the window and the left part above it, the rest of the array as it was |
| BlitSortRotate.MovesRight | code/Core/BlitSort.h:1137-1139 | the three copies leave the left part at the top of the window and the right part below it, the rest of the array as it was |
| BlitSortRotate.RotateByMoves | code/Core/BlitSort.h:1077-1082 | either order of moving the two parts is exactly the left rotation of the window |
| BlitSortRotate.CopyToSwap | code/Core/BlitSort.h:1079 | `memcpy` into swap: swap's first count elements are the array range |
| BlitSortRotate.MoveRange | code/Core/BlitSort.h:1080 | `memmove`: the target range holds the old source range, everything else is unchanged, even when the ranges overlap |
| BlitSortRotate.RotateBridgeLeft | code/Core/BlitSort.h:1092-1104 | the bridge variant for a longer right part ends with the window rotated |
| BlitSortRotate.BridgeLeftCross | code/Core/BlitSort.h:1099-1102 | the crossing loop moves the left part to the top and the right part's tail below the bridge |
| BlitSortRotate.RotateBridgeRight | code/Core/BlitSort.h:1150-1162 | the bridge variant for a longer left part ends with the window rotated |
| BlitSortRotate.BridgeRightCross | code/Core/BlitSort.h:1157-1160 | the crossing loop moves the right part to the bottom and the left part's head above the bridge |
| BlitSortRotate.BridgeLeftFinish | code/Core/BlitSort.h:1103 | copying the bridge back at the bottom finishes the rotation |
| BlitSortRotate.BridgeRightFinish | code/Core/BlitSort.h:1161 | copying the bridge back on top finishes the rotation |
| BlitSortRotate.RotateEqual | code/Core/BlitSort.h:1191-1202 | equal parts exchanged element by element: the window ends rotated |
| BlitSortRotate.RotateFusedLeft | code/Core/BlitSort.h:1105-1130 | the fused three-reversal loops for a longer right part end with the window rotated |
| BlitSortRotate.RotateFusedRight | code/Core/BlitSort.h:1163-1188 | the fused three-reversal loops for a longer left part end with the window rotated |
| BlitSortRotate.CycleFourLoop | code/Core/BlitSort.h:1110-1115 | the first loop runs its rounds of four-element cycles, reversing both parts from their outer ends and placing as many final elements at each end of the window |
| BlitSortRotate.CycleThreeUpLoop | code/Core/BlitSort.h:1117-1122 | for a longer right part, the second loop finishes reversing the right part while it places, leaving only the middle to reverse |
| BlitSortRotate.CycleThreeDownLoop | code/Core/BlitSort.h:1175-1180 | for a longer left part, the second loop finishes reversing the left part while it places, leaving only the middle to reverse |
| BlitSortRotate.ReverseMiddle | code/Core/BlitSort.h:1124-1129 | the third loop reverses what is left in the middle, which puts it where the rotation wants it |
| BlitSortRotate.CycleFour | code/Core/BlitSort.h:1114 | the four-element cycle reverses both parts at their outer ends and places two final elements |
| BlitSortRotate.CycleThreeUp | code/Core/BlitSort.h:1121 | the three-element cycle of the second loop for a longer right part keeps the loop's layout one step further |
| BlitSortRotate.CycleThreeDown | code/Core/BlitSort.h:1179 | the three-element cycle of the second loop for a longer left part keeps the loop's layout one step further |
| BlitSortRotate.SwapEnds | code/Core/BlitSort.h:1128 | exchanging the two ends of the middle keeps the loop's layout one step further |
| BlitSortRotate.CopyFromSwap | code/Core/BlitSort.h:1081 | `memcpy` from swap: the array is its old contents with swap's first count elements written in at `at` |
| BlitSortRotate.MiddleDone | code/Core/BlitSort.h:1124-1129 | when the ends meet, the element left in the middle already sits where the rotation puts it |
| SortSpec.AdjacentSortedIsSorted | code/Core/BlitSort.h:497 | ordered neighbours make an ordered sequence (the meaning of the source's neighbour checks) |
| SortSpec.SortedConcat | code/Core/BlitSort.h:497-500 | two ordered runs that meet in order are one ordered run |
| SortSpec.PermutesTrans | code/Core/BlitSort.h:551-572 | a rearrangement of a rearrangement of a range is a rearrangement of it |
| SortSpec.MergePermutes | code/Core/BlitSort.h:508-527 | the merge is as long as both runs together and holds exactly their elements |
| SortSpec.MergeSorted | code/Core/BlitSort.h:508-527 | the merge of two ordered runs is ordered |
| SortSpec.MergeLast | code/Core/BlitSort.h:1033-1036 | the merge of two ordered runs ends with the larger last element, the right run's on a tie |
| SortSpec.MergeFromIsMerge | code/Core/BlitSort.h:522 | merging from given positions on is merging the suffixes |
| SortSpec.MergeToIsMerge | code/Core/BlitSort.h:1014-1041 | for ordered runs, merging the prefixes from the back (right run wins ties) is their stable merge |
| SortSpec.MergeInOrder | code/Core/BlitSort.h:1005-1008 | runs already in order merge into their concatenation |
| SortSpec.SplitAppend | code/Core/BlitSort.h:300-332 | splitting a run around the pivot splits each part at the same place |
| SortSpec.SplitPermutes | code/Core/BlitSort.h:300-332 | the two parts of a split hold exactly the run's elements |
| SortSpec.SplitLength | code/Core/BlitSort.h:300-332 | the two parts of a split are together as long as the run |
| SortSpec.AtMostBounded | code/Core/BlitSort.h:300-332 | every element of the first part is at most the pivot |
| SortSpec.AboveBounded | code/Core/BlitSort.h:300-332 | every element of the second part is above the pivot |
| SortSpec.DescentsSplit | code/Core/BlitSort.h:95-114 | counting descents up to a midpoint and on from it counts the whole range (the front and back counters add up) |
| SortSpec.NoDescents | code/Core/BlitSort.h:116-119 | no descents means ordered neighbours |
| SortSpec.AllDescents | code/Core/BlitSort.h:121-135 | as many descents as pairs means every neighbour strictly descends |
| SortSpec.ReverseDescending | code/Core/BlitSort.h:121-135 | reading a strictly descending sequence backwards gives an ordered one with the same elements |
| SortSpec.RotateBack | code/Core/BlitSort.h:1071-1203 | rotating by the length of the other part undoes a rotation |
| SortSpec.ThreeReversals | code/Core/BlitSort.h:1105-1130 | reversing both parts and then the whole is the left rotation the fused loops compute |
| BlitSortPartition.PartitionLayout | code/Core/BlitSort.h:300-332 | the split run has the same length and elements as the run, elements at most the pivot before position m and above it from m on |
| BlitSortPartition.PartitionJoin | code/Core/BlitSort.h:302-312 | with both halves split, rotating the first half's upper part past the second half's lower part splits the whole run |
| BlitSortPartition.PartitionedHalves | code/Core/BlitSort.h:302-312 | splitting a run is splitting its two halves and putting the four parts together |
| BlitSortPartition.PartitionSizes | code/Core/BlitSort.h:302-312 | the counts returned by the two halves add up to the count of the whole run |
| BlitSortPartition.PartitionedTail | code/Core/BlitSort.h:302-312 | splitting a run leaves what follows it in place |
| BlitSortPartition.DefaultPartition | code/Core/BlitSort.h:300-332 | blit_default_partition returns how many elements of the old run are at most piv and leaves the array as the run split stably around piv, everything else unchanged |
| BlitSortPartition.PartitionThroughSwap | code/Core/BlitSort.h:313-331 | the single pass over a run that fits in swap splits it stably around piv |
| BlitSortPartition.PartitionRest | code/Core/BlitSort.h:324-327 | the loop over the last nmemb % 4 elements keeps the lower part in the array and the upper part in swap |
| BlitSortPartition.PartitionFour | code/Core/BlitSort.h:316-322 | the unrolled body handles four elements, keeping the split state |
| BlitSortPartition.PartitionStep | code/Core/BlitSort.h:318 | one element is written to both places and counted when it is at most piv |
| BlitSortPartition.PartitionCopyBack | code/Core/BlitSort.h:329 | copying the upper part back after the lower part finishes the split |
| BlitSortAnalyze.NoDescentsIffSorted | code/Core/BlitSort.h:116-119 | no descents in a range if and only if the range is in order |
| BlitSortAnalyze.PlanSortedIff | code/Core/BlitSort.h:116-119 | the analysis leaves the array alone if and only if it is already in order |
| BlitSortAnalyze.PlanReversedIff | code/Core/BlitSort.h:121-135 | the analysis reverses the array if and only if it has two or more elements and every neighbour strictly descends |
| BlitSortAnalyze.PlanSplit | code/Core/BlitSort.h:137-160 | a split is taken only on 1024 or more elements, at block = 32 chunks; a part is left alone only when it is in order and merge sorted only when it is not |
| BlitSortAnalyze.PlanQuadsortAll | code/Core/BlitSort.h:137-165 | the whole array goes to the merge sort only when it has fewer than 1024 elements and is not in order |
| BlitSortAnalyze.CountDescents | code/Core/BlitSort.h:95-114 | the counting loops return the descents of the front and back ranges and the chunk streaks, as the specification functions define them |
| BlitSortAnalyze.CountChunk | code/Core/BlitSort.h:98-109 | one round of the chunk loop adds the next 32 pairs from each end to the descent counts and their streaks |
| BlitSortAnalyze.CountRest | code/Core/BlitSort.h:111-114 | the last loop adds the descents of the pairs left between the cursors to the back counter |
| BlitSortAnalyze.ChunkSums | code/Core/BlitSort.h:100-108 | the inner loop counts the descents of 32 pairs upwards from pta and 32 downwards from ptz |
| BlitSortAnalyze.ReverseFront | code/Core/BlitSort.h:121-135 | the reversal loop leaves the first nmemb elements reversed and the rest unchanged |
| BlitSortAnalyze.SwapEnds | code/Core/BlitSort.h:130 | one round of the reversal swaps the next mirror pair and leaves the other places alone |
| BlitSortAnalyze.SwappedAll | code/Core/BlitSort.h:126-132 | once nmemb / 2 mirror pairs are swapped, the first nmemb elements are reversed |
| BlitSortAnalyze.BlitAnalyze | code/Core/BlitSort.h:89-166 | blit_analyze returns the decision AnalyzePlan makes on the old contents; it reverses the array when the decision is Reversed and changes nothing otherwise |
| BlitSortAnalyze.BlitSort | code/Core/BlitSort.h:1328-1341 | the entry reports done exactly when count < 32 or the analysis finds the array ordered or reversed; then the array is ordered and a permutation, otherwise unchanged |
| MemPro.ObfuscateAddress | code/Core/External/mempro/MemPro.cpp:1313-1318 | the sent value differs from the address and XOR-ing it with the mask 0x12345678abcdef12 gives the address back |
| MemPro.UnobfuscateAddress | code/Core/External/mempro/MemPro.cpp:1321-1324 | obfuscating the result gives back the received value: the server's step inverts the client's |
| MemPro.ObfuscationRoundTrip | code/Core/External/mempro/MemPro.cpp:1314-1325 | unobfuscating an obfuscated address gives it back, and distinct addresses stay distinct |
| MemPro.PaddedLength | code/Core/External/mempro/MemPro.cpp:2476-2486 | a string of len <= 1024 bytes (terminator included) is sent padded to the next multiple of 4: a multiple of 4, at least len and less than len + 4 |
| MemPro.PackRange | code/Core/External/mempro/MemPro.cpp:1081-1083 | packing a start and a size below 2^32 into the 64-bit used range gives back that start and that size |
| MemPro.FreeRange | code/Core/External/mempro/MemPro.cpp:1012-1034 | the free region is absent exactly when the buffer is full; otherwise it starts where the used range ends (wrapped), is non-empty, does not run past the buffer's end and is no larger than the free space |
| MemPro.AllocatedRange | code/Core/External/mempro/MemPro.cpp:1038-1064 | the used region is absent exactly when nothing is used; otherwise it starts at the used range's start and is the used size cut at the buffer's end |
| MemPro.FreeAndAllocatedDisjoint | code/Core/External/mempro/MemPro.cpp:1012-1064 | the free region and the used region handed out at the same moment never overlap |
| MemPro.RingBuffer.constructor | code/Core/External/mempro/MemPro.cpp:954-966 | a power-of-two buffer starts empty at offset 0 |
| MemPro.RingBuffer.Add | code/Core/External/mempro/MemPro.cpp:1068-1090 | adding n bytes grows the used size by n and keeps the start |
| MemPro.RingBuffer.Remove | code/Core/External/mempro/MemPro.cpp:1094-1119 | removing n bytes moves the start on by n modulo the buffer size and shrinks the used size by n |
| MemPro.RingBuffer.Clear | code/Core/External/mempro/MemPro.cpp:1128-1133 | clearing leaves an empty buffer at offset 0 |
| MemPro.BlockAlloc | code/Core/External/mempro/MemPro.cpp:629-644 | an allocation that fits goes at the current usage of the current block, otherwise at offset 0 of a new block; usage afterwards is the end of the allocation, never past the block size |
| MemPro.BlockAllocationsDisjoint | code/Core/External/mempro/MemPro.cpp:629-644 | two successive allocations never overlap |
| MemPro.BlockAllocator.constructor | code/Core/External/mempro/MemPro.cpp:621-625 | no current block and no usage |
| MemPro.BlockAllocator.Alloc | code/Core/External/mempro/MemPro.cpp:629-644 | Alloc returns the address BlockAlloc gives and moves to its state |
| MemPro.StorePages | code/Core/External/mempro/MemPro.cpp:1967-1987 | storing appends the bytes to the stored stream (the pages flattened) and keeps every page within its size, adding at most one page |
| MemPro.DataStore.constructor | code/Core/External/mempro/MemPro.cpp:1935-1936 | the store starts with no pages (head and tail null) |
| MemPro.DataStore.StoreData | code/Core/External/mempro/MemPro.cpp:1967-1987 | StoreData moves the page list to StorePages of the old one |
| MemPro.StacksMatch | code/Core/External/mempro/MemPro.cpp:678-691 | true exactly when the sizes, the hashes and every address agree |
| MemPro.NextSlot | code/Core/External/mempro/MemPro.cpp:742 | the slot after i is (i + 1) modulo the capacity, the source's `& mask` on a power-of-two capacity |
| MemPro.HasEmptySlot | code/Core/External/mempro/MemPro.cpp:772-773 | a table with fewer entries than slots has an empty slot, so the probing loops end |
| MemPro.FillSlot | code/Core/External/mempro/MemPro.cpp:775-777 | filling an empty slot adds one to the count and the callstack to the contents |
| MemPro.AbsentAfterGap | code/Core/External/mempro/MemPro.cpp:741-744 | a lookup that meets an empty slot after only non-matching occupied slots proves that nothing stored matches |
| MemPro.FillKeepsNoGaps | code/Core/External/mempro/MemPro.cpp:771-775 | filling the first empty slot on a hash's probe path keeps every entry reachable from its home slot |
| MemPro.FindMatch | code/Core/External/mempro/MemPro.cpp:739-744 | the probe walk returns a stored callstack that matches, or none when no stored callstack matches |
| MemPro.FindEmpty | code/Core/External/mempro/MemPro.cpp:771-773 | the probe walk ends at an empty slot on the hash's probe path |
| MemPro.CallstackSet.constructor | code/Core/External/mempro/MemPro.cpp:695-702 | an empty set of the initial capacity 4096 |
| MemPro.CallstackSet.Get | code/Core/External/mempro/MemPro.cpp:737-745 | Get returns a stored matching callstack, or none exactly when nothing stored matches |
| MemPro.CallstackSet.AddEntry | code/Core/External/mempro/MemPro.cpp:768-778 | the callstack joins the contents and the count grows by one, the probing invariant kept |
| MemPro.CallstackSet.Grow | code/Core/External/mempro/MemPro.cpp:711-734 | the capacity doubles and the contents and count stay the same |
| MemPro.CallstackSet.Add | code/Core/External/mempro/MemPro.cpp:748-765 | a new callstack gets ID count, joins the contents, and has a larger ID than every earlier one; the set grows first when more than a quarter is used |
| MemPro.CallstackSet.Clear | code/Core/External/mempro/MemPro.cpp:781-797 | the set is empty again at the initial capacity |
| MemPro.CallstackId | code/Core/External/mempro/MemPro.cpp:2297-2309 | a callstack is new exactly when nothing stored matches it; a new one gets the next ID and is added, a known one keeps its ID and the set is unchanged |
| VirtualFs.FindIf | code/Common/VirtualFS.cpp:248-251 | the index found is the first element the predicate accepts, and none means no element is accepted |
| VirtualFs.FindMount | code/Common/VirtualFS.cpp:244-252 | after one leading '/' is skipped, the mount found is the first whose alias is followed by '/' in the path; none means no mount matches |
| VirtualFs.GetMountType | code/Common/VirtualFS.cpp:254-261 | the type of the first matching mount, NoMount when no mount matches |
| VirtualFs.StripMountPath | code/Common/VirtualFS.cpp:263-278 | found exactly when some mount matches; then the rest starts with '/' and the alias plus the rest is the path without its leading '/'; otherwise the path is kept as it is |
| VirtualFs.StripAliasPath | code/Common/VirtualFS.cpp:263-278 | a path built from '/', a mount's alias and a '/'-led remainder strips back to that remainder and has that mount's type |
| VirtualFs.ResolveDiskPath | code/Common/VirtualFS.cpp:313-331 | nothing with the absolute-path flag; otherwise a result exactly when a mount matches, with the first matching mount's index and its root joined to the stripped path |
| VirtualFs.TrimTrailingSlash | code/Common/VirtualFS.cpp:173-174 | a root ending in '/' loses exactly that '/', any other root is kept |
| VirtualFs.SameTypeMountsDiffer | code/Common/VirtualFS.cpp:176-181 | in a table built by the mount calls, two local mounts differ in alias and root and two remote mounts differ in alias |
| VirtualFs.RouteRequest | code/Common/VirtualFS.cpp:833-865 | a path under a remote mount goes to the remote queue when connected and is dropped otherwise; every other path goes to the disk queue tagged with its mount's type, Local when unmounted |
| VirtualFs.PushRequest | code/Common/VirtualFS.cpp:863 | the queue grows by the request at the back, the rest unchanged |
| VirtualFs.PopFirst | code/Common/VirtualFS.cpp:776-779 | an empty queue yields nothing; otherwise the first request and the queue behind it |
| VirtualFs.QueueIsFifo | code/Common/VirtualFS.cpp:775-779 | for any interleaving of pushes and pops, the requests taken followed by those left are the initial queue followed by those pushed: first in, first out |
| VirtualFs.FindRequest | code/Common/VirtualFS.cpp:1064-1065 | the first queued request with the path, none when no request has it |
| VirtualFs.EncodeString | code/Common/VirtualFS.cpp:751-752 | a path is written as its length followed by its characters |
| VirtualFs.DecodeString | code/Common/VirtualFS.cpp:716 | whatever a decode reads, re-encoding it gives back the input it consumed |
| VirtualFs.DecodeEncodedString | code/Common/VirtualFS.cpp:716 | decoding an encoded path gives it back and leaves what follows |
| VirtualFs.DecodeEncodedPaths | code/Common/VirtualFS.cpp:714-716 | decoding count encoded paths gives them back in order |
| VirtualFs.DecodeEncodedChanges | code/Common/VirtualFS.cpp:711-716 | the client reads back exactly the list of paths the server wrote |
| VirtualFs.WriteChanges | code/Common/VirtualFS.cpp:745-754 | the server's loop writes the count and then each path, which is EncodeChanges |
| VirtualFs.WatchedChanges | code/Common/VirtualFS.cpp:718-732 | a changed path is reported exactly when it is one of the changes and lies under a watched remote mount |
| VirtualFs.NotifyRemoteChanges | code/Common/VirtualFS.cpp:705-735 | the client's loop reports exactly WatchedChanges, in order |
| VirtualFs.FileSystem.constructor | code/Common/VirtualFS.cpp:1206-1242 | no mounts, empty request queues and no file changes |
| VirtualFs.FileSystem.MountLocal | code/Common/VirtualFS.cpp:156-191 | the mount is added exactly when the root is a directory and no mount has the same alias or the same trimmed root; a refused mount leaves the table as it was |
| VirtualFs.FileSystem.MountRemote | code/Common/VirtualFS.cpp:193-242 | the remote mount is added exactly when no remote mount has the alias; otherwise the table is unchanged |
| VirtualFs.FileSystem.Submit | code/Common/VirtualFS.cpp:820-931 | the request goes to the queue RouteRequest picks, nothing else changes |
| VirtualFs.FileSystem.ReadFileAsync | code/Common/VirtualFS.cpp:820-866 | a read request is routed as RouteRequest says |
| VirtualFs.FileSystem.WriteFileAsync | code/Common/VirtualFS.cpp:868-931 | a write request is routed as RouteRequest says |
| VirtualFs.FileSystem.NextAsyncRequest | code/Common/VirtualFS.cpp:774-780 | the disk worker takes the oldest queued request, if any |
| VirtualFs.FileSystem.PopRemoteRequest | code/Common/VirtualFS.cpp:1061-1074 | a reply takes out the first waiting request for its path; none exactly when no request has that path, and then the queue is unchanged |
| VirtualFs.FileSystem.RecordFileChange | code/Common/VirtualFS.cpp:684-691 | a change is appended exactly when no waiting change has the same path hash |
| VirtualFs.FileSystem.TakeFileChanges | code/Common/VirtualFS.cpp:744-757 | the message is the encoding of every waiting change, and the list is empty afterwards |
| ModelBake.GetFilter | code/Assets/Model.cpp:275-286 | a recognised GLTF filter constant gives the mode whose constant it is; Default exactly when no mode has that constant; the copy at code/Graphics/Model.cpp:81-92 is the same logic |
| ModelBake.GetWrap | code/Assets/Model.cpp:288-296 | a recognised GLTF wrap constant gives the mode whose constant it is; Default exactly when no mode has that constant; the copy at code/Graphics/Model.cpp:94-102 is the same logic |
| ModelBake.GetFilterWrapRoundTrip | code/Assets/Model.cpp:47-62 | decoding the GLTF constant of any non-default filter or wrap mode gives that mode back |
| ModelBake.ConvertVertexAttribute | code/Assets/Model.cpp:420-458 | the semantic is empty exactly for unsupported type/index pairs, otherwise it is the type's semantic; texcoords 0-3 keep their index and every other index becomes 0; the copy at code/Graphics/Model.cpp:219-257 is the same logic |
| ModelBake.ColorSetsShareSemantic | code/Assets/Model.cpp:440-447 | color sets 0 to 3 all map to the same attribute, COLOR 0 |
| ModelBake.LayoutHasTangentsAsWritten | code/Assets/Model.cpp:97-106 | the unbounded scan reads past the attribute array exactly when no slot is empty or TANGENT; the copy at code/Graphics/Model.cpp:320-329 is the same logic |
| ModelBake.LayoutHasTangentsReadsPastEnd | code/Assets/Model.cpp:97-106 | a full eight-attribute layout without a tangent sends the scan past the end of the array |
| ModelBake.LayoutHasTangents | code/Assets/Model.cpp:97-106 | the bounded scan is true exactly when a TANGENT comes before the first empty slot; the copy at code/Graphics/Model.cpp:320-329 is the same logic |
| ModelBake.LayoutHasTangentsAgree | code/Assets/Model.cpp:97-106 | wherever the as-written scan stays inside the array it answers as the bounded one |
| ModelBake.NumVertexBuffersAsWritten | code/Assets/Model.cpp:674-680 | the unbounded count reads past the stride array exactly when every stride is non-zero; otherwise it stops at the first zero stride; the copy at code/Graphics/Model.cpp:733-739 is the same logic |
| ModelBake.NumVertexBuffersReadsPastEnd | code/Assets/Model.cpp:674-680 | a layout using all four vertex buffers sends the count past the end of the stride array |
| ModelBake.NumVertexBuffers | code/Assets/Model.cpp:674-680 | the count is the number of leading non-zero strides, at least one and at most four; the copy at code/Graphics/Model.cpp:733-739 is the same logic |
| ModelBake.NumVertexBuffersAgree | code/Assets/Model.cpp:674-680 | wherever the as-written count stops inside the array it gives the bounded count |
| ModelBake.VertexCount | code/Assets/Model.cpp:517-525 | a primitive's vertex count is its first non-zero attribute count: every count before it is 0, and the result is 0 exactly when all are 0 |
| ModelBake.IndexRangesOrdered | code/Assets/Model.cpp:563-567 | an earlier submesh's index range ends no later than a later one's begins, so submesh ranges never overlap |
| ModelBake.RebasedIndicesAt | code/Assets/Model.cpp:533-567 | in the mesh index buffer, primitive j's k-th index sits at the sum of the earlier index counts plus k and is raised by the earlier vertex counts |
| ModelBake.SetupBuffers | code/Assets/Model.cpp:501-568 | every submesh starts at the sum of earlier index counts with its own count, and the index buffer holds each primitive's indices raised by the earlier vertex counts; the copy at code/Graphics/Model.cpp:431-497 is the same logic |
| ModelBake.CopyPrimitive | code/Assets/Model.cpp:533-567 | one primitive's rebased indices are appended after those of the earlier primitives |
| ModelBake.CopyRebased | code/Assets/Model.cpp:537-538 | the indices are written raised by base at start, the rest of the buffer unchanged |
| ModelBake.CountMeshTotals | code/Assets/Model.cpp:702-723 | the bake goes on exactly when every primitive's attribute counts agree (the ASSERT_ALWAYS at 712) and the mesh has at least one vertex and one index (the ASSERT_ALWAYS at 721); when the counts agree, the mesh's vertex and index counts are the sums over its primitives; the copy at code/Graphics/Model.cpp:705-730 is the same logic |
| ModelBake.FirstNonZeroCount | code/Assets/Model.cpp:706-713 | the loop passes its assertion exactly when the attribute counts agree, and then returns the primitive's vertex count, the first non-zero attribute count |
| ModelBake.VertexCountOfAgreeing | code/Assets/Model.cpp:706-713 | when a primitive's attribute counts agree, every non-zero count equals its vertex count |
| ModelBake.DisagreeingCount | code/Assets/Model.cpp:710-712 | a non-zero running count that differs from the next attribute count means the counts do not agree, so the assertion fails only then |
| ModelBake.AgreeingCountsExtend | code/Assets/Model.cpp:710-712 | an attribute count that passes the assertion keeps the counts seen so far in agreement |
| ModelBake.BufferRangesDisjoint | code/Assets/Model.cpp:807-823 | every mesh's buffer offset is a multiple of 16 and its range ends before any later mesh's range begins |
| ModelBake.AppendMeshVertices | code/Assets/Model.cpp:810-815 | each vertex buffer gives the mesh the running size before it and grows to the aligned size after it |
| ModelBake.AppendMesh | code/Assets/Model.cpp:808-822 | one mesh of the layout loop: it gets the running vertex and index totals as its offsets, and the totals move past it, aligned to 16 |
| ModelBake.LayoutBuffers | code/Assets/Model.cpp:807-823 | every mesh's vertex and index offsets are the aligned running totals of the meshes before it, and the final sizes the totals of all meshes |
| ModelBake.DedupMaterials | code/Assets/Model.cpp:638-666 | primitives with equal material hashes share one entry and different hashes get different entries; entries are distinct, each comes from some primitive, and entry k has id IndexToId(k) |
| ModelBake.FindMaterial | code/Assets/Model.cpp:650-652 | the search finds the first entry with the hash; when no entry has it, the result is the list's count, the position the new entry takes |
| ModelBake.FindNodeByName | code/Assets/Model.cpp:775-782 | 0 exactly when no node has the name; otherwise the 1-based id of the first node with it; the copy at code/Graphics/Model.cpp:798-805 is the same logic |
| ModelBake.TexturePaths | code/Graphics/Model.cpp:873-880 | a material has at most four texture paths to depend on |
| ModelBake.DefaultMaterial | code/Graphics/Model.cpp:104-107 | the default material has no textures |
| ModelBake.CreateMaterial | code/Graphics/Model.cpp:109-216 | the number of textures counted is the number of texture paths the material gets, at most four, and 0 without PBR metallic-roughness data |
| ModelBake.BakedMaterials | code/Graphics/Model.cpp:722-727 | one baked material per primitive |
| ModelBake.DependencyCountMatchesTextureCount | code/Graphics/Model.cpp:866-882 | one dependency is gathered for each texture counted while loading |
| ModelBake.GatherDependencies | code/Graphics/Model.cpp:846-890 | the gathered dependencies are the set texture paths of every submesh material, in order |
| ModelBake.Load | code/Graphics/Model.cpp:892-942 | an unchanged cache hash returns only the hash; a failed load returns an empty result; otherwise the model, the new hash, and as dependencies the set texture paths of the baked submesh materials in order, one per counted texture |
| GfxFormats.VertexStride | code/Graphics/Model.cpp:259-288 | the loader's copy of the stride table: channel count times channel size for the listed formats, 0 for any other; the copy at code/Assets/Model.cpp:66-95 is the same logic |
| GfxFormats.IsDepthStencil | code/Graphics/GfxBackend.cpp:572-595 | a format is depth/stencil exactly when it has a depth channel or a stencil channel; the copies at code/Graphics/Graphics.cpp:1330-1353 and code/Graphics/GraphicsVk.cpp:589-612 are the same logic |
| GfxFormats.VertexStrideBounds | code/Assets/Model.cpp:66-95 | every stride is a multiple of 4 and at most 16, and non-zero exactly for the accepted formats |
| MathVector.int2Add | code/Core/MathVector.h:876-879 | subtracting b from the sum gives a back, on both coordinates |
| MathVector.int2Sub | code/Core/MathVector.h:881-884 | adding b to the difference gives a back, on both coordinates |
| MathVector.int2Min | code/Core/MathVector.h:886-889 | each coordinate is one of the two inputs' and at most both: the componentwise greatest lower bound |
| MathVector.int2Max | code/Core/MathVector.h:891-894 | each coordinate is one of the two inputs' and at least both: the componentwise least upper bound |
| MathVector.Int2SubUndoesAdd | code/Core/MathVector.h:876-884 | int2Sub(int2Add(a, b), b) == a and int2Add(int2Sub(a, b), b) == a |
| MathVector.Int2MinMaxOrdered | code/Core/MathVector.h:886-894 | min and max are commutative and the minimum never exceeds the maximum on either coordinate |
| MathVector.rectiExpand | code/Core/MathVector.h:979-982 | expanding by e keeps the centre and grows the width by 2*e.x and the height by 2*e.y; the copy at code/Core/MathAll.h:947-950 is the same logic |
| MathVector.rectiWidth | code/Core/MathVector.h:1005-1008 | xmin plus the width is xmax, and the width is non-negative exactly when xmin <= xmax; the copy at code/Math/MathVector.h:996-999 is the same logic |
| MathVector.rectiHeight | code/Core/MathVector.h:1010-1013 | ymin plus the height is ymax, and the height is non-negative exactly when ymin <= ymax; the copy at code/Math/MathVector.h:1001-1004 is the same logic |
| MathVector.rectiTest | code/Core/MathVector.h:991-998 | true exactly when the closed x extents and the closed y extents both intersect; the copies at code/Math/MathVector.h:982-989 and code/Core/MathAll.h:959-966 are the same logic |
| MathVector.rectiTestPoint | code/Core/MathVector.h:984-989 | true exactly when xmin <= x <= xmax and ymin <= y <= ymax, bounds inclusive; the copies at code/Core/MathAll.h:952-957 and code/Math/MathVector.h:975-980 are the same logic |
| MathVector.RectiTestSymmetric | code/Core/MathVector.h:991-998 | the overlap test gives the same answer with its arguments exchanged; the copies at code/Core/MathAll.h:959-966 and code/Math/MathVector.h:982-989 are the same logic |
| MathVector.RectiTestIffCommonPoint | code/Core/MathVector.h:991-998 | for well-formed rectangles the overlap test is true exactly when some point lies in both (inclusive overlap) |
| MathVector.rectiAddPoint | code/Core/MathVector.h:1000-1003 | the result contains the point and every point the old rectangle contained; the copy at code/Math/MathVector.h:991-994 is the same logic |
| MathVector.RectiAddPointIsSmallest | code/Core/MathVector.h:1000-1003 | any rectangle holding the point and the old corners holds the result: the growth is the least needed |
| MathVector.rectiGetCorner | code/Core/MathVector.h:1015-1029 | index 0 is (xmin, ymin), 1 is (xmax, ymin), 2 is (xmin, ymax), 3 is (xmax, ymax); on a well-formed rectangle the corner lies in it; the copies at code/Core/MathAll.h:999-1013 and code/Math/MathVector.h:1006-1020 are the same logic |
| MathVector.Corners | code/Core/MathVector.h:1015-1025 | the four corners in the order of the diagram, starting at (xmin, ymin) and ending at (xmax, ymax) |
| MathVector.rectiGetCornersAsWritten | code/Core/MathVector.h:1031-1035 | as written, corners[0] ends up holding corner 3 and corners[1..4) keep what they held; the copy at code/Math/MathVector.h:1022-1026 is the same logic |
| MathVector.CornersAsWritten | code/Core/MathVector.h:1031-1035 | the array the as-written loop leaves: corner 3 at index 0, the rest untouched |
| MathVector.CornersAsWrittenDiffer | code/Core/MathVector.h:1031-1035 | on the unit square with a zeroed array, the as-written loop leaves (1, 1) at index 0 and not at index 3: it differs from the diagram |
| MathVector.rectiGetCorners | code/Core/MathVector.h:1031-1035 | corrected: corners[i] holds corner i of the diagram |
| MathAll.RectInt.constructor | code/Core/MathAll.h:949 | the four-coordinate construction: the rectangle holds exactly the given xmin, ymin, xmax, ymax |
| MathAll.RectInt.Width | code/Core/MathAll.h:978-981 | the member width is rectiWidth of the rectangle's value |
| MathAll.RectInt.Height | code/Core/MathAll.h:983-986 | the member height is rectiHeight of the rectangle's value |
| MathAll.RectInt.IsEmpty | code/Core/MathAll.h:973-976 | not empty exactly when some pixel lies in [xmin, xmax) x [ymin, ymax), which is xmin < xmax and ymin < ymax |
| MathAll.RectInt.SetWidth | code/Core/MathAll.h:988-991 | xmin and the vertical extent stay, and Width() is w afterwards |
| MathAll.RectInt.SetHeight | code/Core/MathAll.h:993-996 | ymin and the horizontal extent stay, and Height() is h afterwards |
| MathAll.RectInt.AddPoint | code/Core/MathAll.h:968-971 | in place, rc becomes rectiAddPoint of its old value: it contains pt and everything it contained |
| MathAll.RectInt.GetCornersAsWritten | code/Core/MathAll.h:1015-1019 | as written, corners[0] ends up holding (xmax, ymax) and corners[1..4) keep what they held |
| MathAll.RectInt.GetCorners | code/Core/MathAll.h:1015-1019 | corrected: corners[i] holds corner i of the diagram |
| Render.RVertexLayoutConsistent | code/Renderer/Render.cpp:69-78 | every attribute of the renderer's vertex layout names an existing buffer and fits inside that buffer's stride, and attributes sharing a buffer do not overlap |
| Render.GetCompatibleLayout | code/Renderer/Render.cpp:533-543 | the first min(maxAttributes, 3) attributes and min(maxStrides, 2) strides are copied in order, the rest of both output arrays is untouched |
| Render.MsaaIsValid | code/Renderer/Render.cpp:549-557 | an MSAA setting is accepted exactly when it is 2 to a power 0 through 4 |
| Render.TileCount | code/Renderer/Render.cpp:193-194 | the tile count is the least whose 16-pixel tiles cover all pixels |
| Render.VisibleLightBufferBytes | code/Renderer/Render.cpp:193-196 | the visible-light buffer holds one 4-byte slot per light of each tile, 64 per tile |
| Render.PixelTileInBuffer | code/Renderer/Render.cpp:193-196 | every pixel lies in a tile whose 64 light slots are all inside the visible-light buffer |
| Render.FillSentinels | code/Renderer/Render.cpp:709-715 | the first slot of every tile's light list holds the 0xffffffff sentinel and no other slot changes |
| Render.SumIndicesAppend | code/Renderer/Render.cpp:788-790 | the draw count of two concatenated sub-chunk lists is the sum of their draw counts |
| Render.GeometryChunk.constructor | code/Renderer/Render.cpp:1001 | a chunk is allocated zeroed: no successor and no sub-chunks |
| Render.GeometryChunk.AddSubChunk | code/Renderer/Render.cpp:1133-1138 | the sub-chunk is appended after the existing ones and the count grows by one; the chunk's successor is unchanged |
| Render.GeometryChunk.AddSubChunks | code/Renderer/Render.cpp:1140-1148 | a non-empty run of sub-chunks is appended in order and the count grows by its length |
| Render.GeometryChunk.DrawCount | code/Renderer/Render.cpp:788-792 | the Z-prepass index count of a chunk is the sum of its sub-chunks' index counts |
| Render.AddSubChunksDrawCount | code/Renderer/Render.cpp:1140-1148 | appending sub-chunks grows the draw count by exactly theirs, so it never shrinks |
| Render.ViewData.constructor | code/Renderer/Render.cpp:80 | a view starts with no lights and no geometry chunks |
| Render.ViewData.NewGeometryChunk | code/Renderer/Render.cpp:997-1013 | a fresh zeroed chunk is linked at the tail; the head is set only on the first append; the count grows by one; existing chunks and the lights are unchanged |
| Render.ViewData.DrawCounts | code/Renderer/Render.cpp:788-794 | walking the list from the head issues one draw per chunk, with that chunk's index sum |
| Render.ViewData.ResetForFrame | code/Renderer/Render.cpp:1019-1026 | a view's chunk list, tail, lights and counts are all cleared |
| Render.NewFrame | code/Renderer/Render.cpp:1015-1027 | every view's chunk list, light arrays and counts are cleared |
| GfxBackend.TransformRectangle | code/Graphics/GfxBackend.cpp:688-716 | off the swapchain or without rotation the rectangle is unchanged; a 90 or 270 degree rotation swaps its width and height, a 180 degree one keeps them; the copies at code/Graphics/Graphics.cpp:1374-1402 and code/Graphics/GraphicsVk.cpp:4134-4162 are the same logic |
| GfxBackend.Rotate270UndoesRotate90 | code/Graphics/GfxBackend.cpp:699-712 | mapping by 90 degrees and then by 270 degrees in the side-swapped framebuffer gives back the original rectangle |
| GfxBackend.Rotate180IsInvolution | code/Graphics/GfxBackend.cpp:704-707 | mapping by 180 degrees twice gives back the original rectangle |
| GfxBackend.TransformKeepsRectangleInside | code/Graphics/GfxBackend.cpp:688-716 | a rectangle inside the view lands inside the framebuffer, whose sides are swapped for 90 and 270 degrees |
| GfxBackend.CollectPartitions | code/Graphics/GfxBackend.cpp:718-764 | a collection pass keeps and destroys exactly the original entries; only expired entries are destroyed; unless forced no more than 32 are destroyed |
| GfxBackend.ForcedCollectDestroysAll | code/Graphics/GfxBackend.cpp:725-727 | a forced collection destroys every entry and keeps none |
| GfxBackend.CollectKeepsLiveEntries | code/Graphics/GfxBackend.cpp:727-762 | an entry whose frame is within the two frames in flight is never destroyed |
| GfxBackend.CollectUnderLimit | code/Graphics/GfxBackend.cpp:718-764 | with fewer than 32 expired entries a pass destroys exactly the expired ones and keeps the live ones in order |
| GfxBackend.GarbageList.constructor | code/Graphics/GfxBackend.cpp:561 | the garbage list starts empty |
| GfxBackend.GarbageList.CollectGarbage | code/Graphics/GfxBackend.cpp:718-764 | the list left and the entries destroyed are those of the collection pass over the old list |
| GfxBackend.CollectEntries | code/Graphics/GfxBackend.cpp:724-763 | the in-place loop, popping each destroyed entry and advancing past each kept one, computes the collection pass |
| GfxBackend.AlignedCursor | code/Graphics/GfxBackend.cpp:2422-2424 | the offset is rounded up to the least multiple of the alignment at or after it |
| GfxBackend.FindFit | code/Graphics/GfxBackend.cpp:2420-2429 | the block chosen is the highest-numbered one whose aligned cursor leaves room for the request, and none means no block has room |
| GfxBackend.MemoryBumpAllocator.constructor | code/Graphics/GfxBackend.cpp:2332-2347 | the allocator starts with one block at offset 0 and that block's capacity |
| GfxBackend.MemoryBumpAllocator.Malloc | code/Graphics/GfxBackend.cpp:2399-2452 | a disallowed memory type or an oversized request fails with no change; otherwise the fitting block found from the last one takes the allocation and its cursor moves past it, or a new block is appended and serves it from offset 0, or the call fails when that block cannot be created |
| GfxBackend.MemoryBumpAllocator.Reset | code/Graphics/GfxBackend.cpp:2454-2458 | every block's cursor returns to 0 and the blocks are kept |
| GfxBackend.FindFitIsFreshAndAligned | code/Graphics/GfxBackend.cpp:2420-2438 | an allocation handed out is aligned, fits in its block and starts at or after the block's previous cursor, so it overlaps no earlier allocation of the frame |
| GfxBackend.FirstMatch | code/Graphics/GfxBackend.cpp:3833-3850 | the memory type found is the first from the start point that matches, and none means none matches |
| GfxBackend.SearchMemoryTypes | code/Graphics/GfxBackend.cpp:3833-3850 | one scan returns the first type, skipping non-device-local heaps when asked, whose flags equal or share a bit with the requested ones |
| GfxBackend.FindDeviceMemoryType | code/Graphics/GfxBackend.cpp:3828-3857 | an exact match first, then an overlapping match, then the same search with the fallback flags, and otherwise the not-found index |
| GfxBackend.MemoryTypeForSound | code/Graphics/GfxBackend.cpp:3828-3857 | a type found is allowed and matches the requested or fallback flags; an exact match always wins; nothing found means no type even overlaps them |
| GfxBackend.AssignQueueFamily | code/Graphics/GfxBackend.cpp:4168-4202 | the not-found index exactly when no family has the type, a queue, no exclusion and none of the avoided bits; otherwise the lowest such family |
| GfxBackend.FirstWithBits | code/Graphics/GfxBackend.cpp:4204-4212 | the position of the first queue type having all the requested bits, with no earlier one having them |
| GfxBackend.FindQueue | code/Graphics/GfxBackend.cpp:4204-4212 | the index of the first queue whose type has all the requested bits, or the not-found index |
| GfxBackend.GetSemaphore | code/Graphics/GfxBackend.cpp:5654-5668 | the last free semaphore is reused when there is one, otherwise a new one is created; either way it is recorded as in use and no semaphore is lost |
| GfxBackend.ResetSemaphores | code/Graphics/GfxBackend.cpp:5670-5676 | every in-use semaphore moves to the free list; none stays in use and none is lost |
| GfxBackend.ResetForFrame | code/Graphics/GfxBackend.cpp:4430-4443 | all fences and command buffers of the context go back to their free lists and nothing is pending |
| GfxBackend.TakeSubmission | code/Graphics/GfxBackend.cpp:4253-4286 | nothing is submitted, and nothing changes, exactly when no command buffer was recorded since the last submit; otherwise those buffers are taken in order, marked submitted, and a reused or new fence is recorded |
| GfxBackend.NextGeneration | code/Graphics/GfxBackend.cpp:4418 | the 32-bit generation counter advances by one and wraps to 0 |
| GfxBackend.FrameIndexAlternates | code/Graphics/GfxBackend.cpp:4418-4419 | consecutive frames use different frame-in-flight slots, also across the counter's wrap-around, and every other frame uses the same slot |
| GfxBackend.BeginFrameQueue | code/Graphics/GfxBackend.cpp:4421-4448 | the slot's command-buffer context and semaphore bank are recycled and the other slot, still in flight, is untouched |
| GfxBackend.SubmitOnQueue | code/Graphics/GfxBackend.cpp:4244-4298 | the request carries the pending command buffers, the requested and injected dependents (then cleared), a fence and a semaphore of the slot; the other slot is untouched; no pending buffer means no request and no change |
| GfxBackend.QueueTypes | code/Graphics/GfxBackend.cpp:233 | the queues' type masks, one per queue in queue order |
| GfxBackend.BeginFrameQueues | code/Graphics/GfxBackend.cpp:4421-4448 | every queue is recycled for the new slot, in queue order |
| GfxBackend.DeviceMemoryManager.constructor | code/Graphics/GfxBackend.cpp:3794-3799 | one fresh transient allocator per frame slot, each with its first block at offset 0 |
| GfxBackend.DeviceMemoryManager.ResetTransientAllocators | code/Graphics/GfxBackend.cpp:3710-3717 | the slot's transient allocator is reset (every cursor 0, blocks kept), staging uses that slot, the other slot's allocator is unchanged |
| GfxBackend.QueueManager.BeginFrame | code/Graphics/GfxBackend.cpp:4415-4451 | the generation advances, the frame slot changes, each queue recycles that slot's fences, command buffers and semaphores, and the memory manager's transient allocator for that slot is reset (cursors 0, blocks kept) with staging moved to the slot, the other slot's allocator untouched |
| GfxBackend.QueueManager.SubmitQueue | code/Graphics/GfxBackend.cpp:4244-4298 | only the first queue of the requested type changes, as one submission on it, and its request (if any) joins the list |
| GfxBackendVk.GetQueueIndex | code/Graphics/GfxBackendVk.cpp:277-285 | the index of the first queue whose type has all the requested bits, or the not-found index |
| GfxBackendVk.BackendQueueTypes | code/Graphics/GfxBackendVk.cpp:149 | the queues' type masks, one per queue in queue order |
| GfxBackendVk.AssignQueueFamily | code/Graphics/GfxBackendVk.cpp:1003-1028 | when some family has the type, a queue and none of the avoided bits, the lowest such family; otherwise the lowest family with the type and a queue; the not-found index exactly when there is none |
| GfxBackendVk.SameFamilyBefore | code/Graphics/GfxBackendVk.cpp:1132-1133 | the first earlier queue of the same family, and none means no earlier queue shares it |
| GfxBackendVk.MergeQueuesFrom | code/Graphics/GfxBackendVk.cpp:1130-1143 | the merge loop keeps the array's length, never raises the queue count and leaves the slots past the count alone |
| GfxBackendVk.FindSameFamily | code/Graphics/GfxBackendVk.cpp:1132-1142 | the inner loop finds the first earlier queue of the same family |
| GfxBackendVk.MergeQueues | code/Graphics/GfxBackendVk.cpp:1129-1143 | the in-place merge over the queue array computes the merge loop, with the swaps and the shrinking count |
| GfxBackendVk.MergeStep | code/Graphics/GfxBackendVk.cpp:1131-1142 | one round of the outer loop either merges queue i and shrinks the count or moves past it, so the loop ends, and what is left to do computes the same merge |
| GfxBackendVk.MergeInto | code/Graphics/GfxBackendVk.cpp:1134-1138 | the type union and the swap with the last queue, after which the merge of the rest with one queue fewer is the merge from before |
| GfxBackendVk.MergeAt | code/Graphics/GfxBackendVk.cpp:1134-1136 | one merge keeps the array's length and leaves the slots past the count alone |
| GfxBackendVk.MergeQueuesCorrect | code/Graphics/GfxBackendVk.cpp:1129-1143 | for the three queues the backend sets up, or fewer, the merge leaves one queue per distinct family, carrying the union of the types of that family's queues |
| GfxBackendVk.MergeNeedsAtMostThreeQueues | code/Graphics/GfxBackendVk.cpp:1135-1139 | with four queues, a queue swapped in from the end is not compared with the queues before it, and two queues of one family remain |
| GfxBackendVk.FirstOverlapAsWritten | code/Graphics/GfxBackendVk.cpp:323-330 | the type found by the overlapping pass as written is the first that shares a bit with the flags and is not skipped by the inverted heap test |
| GfxBackendVk.FindDeviceMemoryTypeAsWritten | code/Graphics/GfxBackendVk.cpp:308-337 | the search as written: the exact pass, then the overlapping pass with its inverted heap test, then the same with the fallback flags, and otherwise the not-found index |
| GfxBackendVk.FindDeviceMemoryTypeAsWrittenIgnoresLocalHeap | code/Graphics/GfxBackendVk.cpp:323-330 | asked for host-visible memory on a device-local heap, the search as written picks a type of a non-device-local heap although a device-local one exists, which the corrected search returns |
| GfxBackendVk.BumpMalloc | code/Graphics/GfxBackendVk.cpp:1925-1934 | the cursor moves to the aligned offset plus the size; the call fails exactly when that passes the capacity; otherwise the allocation is aligned and inside the capacity |
| GfxBackendVk.FailedMallocFailsUntilReset | code/Graphics/GfxBackendVk.cpp:1928-1932 | since the cursor advances also on failure, once an allocation fails every later one fails until a reset |
| GfxBackendVk.ConsecutiveMallocsDisjoint | code/Graphics/GfxBackendVk.cpp:1925-1934 | two successful allocations in a row do not overlap |
| GfxBackendVk.MemoryBumpAllocator.constructor | code/Graphics/GfxBackendVk.cpp:1874-1882 | the allocator starts with its capacity and memory type and the cursor at 0 |
| GfxBackendVk.MemoryBumpAllocator.Malloc | code/Graphics/GfxBackendVk.cpp:1915-1935 | a disallowed memory type fails with the cursor unchanged; otherwise the call is one bump step |
| GfxBackendVk.MemoryBumpAllocator.Reset | code/Graphics/GfxBackendVk.cpp:195 | the cursor returns to 0 |
| GfxBackendVk.ResetQueue | code/Graphics/GfxBackendVk.cpp:1789-1808 | the queue's 32-bit generation advances, it switches to the other manager, whose fences and command buffers go back to its free lists with none lost, and the manager left is untouched |
| GfxBackendVk.TakeCommandBuffer | code/Graphics/GfxBackendVk.cpp:1826-1844 | the last free command buffer is reused, otherwise a new one is allocated; the call fails exactly when the free list is empty and the allocation fails; on success the buffer is recorded as in use |
| GfxBackendVk.Queues.ResetQueues | code/Graphics/GfxBackendVk.cpp:1789-1808 | every queue is reset for the new frame |
| GfxBackendVk.Queues.NewCommandBuffer | code/Graphics/GfxBackendVk.cpp:1811-1846 | on the first queue of the type, the buffer carries the queue's generation, its position among the manager's buffers and the queue index; a failed allocation returns nothing and changes nothing |
| Graphics.HasVulkanVersionMonotone | code/Graphics/GraphicsVk.cpp:457-461 | a device that has a version also has every older one |
| Graphics.HasVulkanVersionOnVulkanDevice | code/Graphics/GraphicsVk.cpp:457-461 | on a device with a known Vulkan version, the versions it has are exactly those up to its own |
| Graphics.CollectGarbageSwap | code/Graphics/GraphicsVk.cpp:2248-2273 | the swap-remove pass loses and invents no entry, keeps only live entries and destroys only expired ones, with no per-frame limit; the copy at code/Graphics/Graphics.cpp:4136-4161 is the same logic |
| Graphics.SwapRemove | code/Graphics/GraphicsVk.cpp:2267 | removing by swapping in the last element shortens the array by one and keeps the elements before the removed one |
| Graphics.SwapRemoveMultiset | code/Graphics/GraphicsVk.cpp:2267 | a swap-remove loses exactly the removed element |
| Graphics.SwapCollectKeepsLives | code/Graphics/GraphicsVk.cpp:2248-2273 | an unforced swap-remove pass keeps the same entries as the order-keeping pass of the backend, and destroys the same ones, in some order |
| Graphics.LivesExpiredsSplit | code/Graphics/GraphicsVk.cpp:2253-2272 | the live and the expired entries of a list together are its entries, each part holding only its kind |
| Graphics.MipCopyRegions | code/Graphics/GraphicsVk.cpp:885-907 | one region per mip: a single mip is read from offset 0 and several from their given offsets, each at its level with the halved extents; the copy at code/Graphics/Graphics.cpp:1645-1667 is the same logic |
| Graphics.MipExtentClosedForm | code/Graphics/GraphicsVk.cpp:905-906 | the extent of a non-empty side at a level is the size divided by 2 to that level, and at least 1 |
| Graphics.MipExtentBounds | code/Graphics/GraphicsVk.cpp:905-906 | every mip below the top is at least one texel wide, and no mip is larger than the image |
| Graphics.FirstOccurrencesDistinct | code/Graphics/GraphicsVk.cpp:1857-1881 | each family index appears once among the queue-create infos, and every requested family appears |
| Graphics.UniqueQueueFamilies | code/Graphics/GraphicsVk.cpp:1857-1881 | an index is added exactly when no earlier requested index equals it; the copy at code/Graphics/Graphics.cpp:895-919 is the same logic |
| Graphics.MinImagesAsWrittenWithoutLimit | code/Graphics/GraphicsVk.cpp:1306-1307 | as written, a surface reporting maxImageCount 0 (no limit) and a minimum of at least 2 gets an image count of 0, or 1 if Clamp applies its lower bound last: below the surface minimum either way |
| Graphics.MinImages | code/Graphics/GraphicsVk.cpp:1306-1307 | the image count is between 1 and 3 and within the surface maximum when there is one; it is one more than the minimum when that fits, and never below the minimum |
| Graphics.MinImagesAgreeWithLimit | code/Graphics/Graphics.cpp:2227-2228 | whenever the surface states a maximum, the corrected count equals the count as written |
| Graphics.FindLayout | code/Graphics/GraphicsVk.cpp:3727-3728 | the layout found is the first with the hash, and none means no layout has it |
| Graphics.FindHandle | code/Graphics/GraphicsVk.cpp:3801 | the layout found has the handle, and none means no layout has it |
| Graphics.LayoutCache.constructor | code/Graphics/GraphicsVk.cpp:3726-3727 | the layout cache starts empty |
| Graphics.LayoutCache.CreateLayout | code/Graphics/GraphicsVk.cpp:3726-3791 | a cached layout with the hash gains one owner and is returned; otherwise a new layout with one owner is added, or nothing changes when the Vulkan object cannot be created; a returned layout has one owner more; the copy at code/Graphics/Graphics.cpp:3643-3651 is the same logic |
| Graphics.LayoutCache.DestroyLayout | code/Graphics/GraphicsVk.cpp:3795-3812 | an invalid handle is ignored; otherwise the layout loses one owner and is removed with its last one; pipeline layouts (code/Graphics/GraphicsVk.cpp:820-832) are released the same way; the copy at code/Graphics/Graphics.cpp:3717-3734 is the same logic |
| Graphics.Inc | code/Graphics/GraphicsVk.cpp:3830-3837 | the counter of a counted descriptor type grows by one and no other counter moves; other types change nothing |
| Graphics.Dec | code/Graphics/GraphicsVk.cpp:3896-3903 | the counter of a counted descriptor type, which must be positive, drops by one and no other counter moves |
| Graphics.StatsExtensional | code/Graphics/GraphicsVk.cpp:3893 | the descriptor stats are determined by their counters |
| Graphics.CountOf | code/Graphics/GraphicsVk.cpp:3829-3837 | a layout never has more bindings of a type than bindings |
| Graphics.CountCreatedSet | code/Graphics/GraphicsVk.cpp:3829-3837 | creating a set adds, for each counted type, its layout's bindings of that type; the copy at code/Graphics/Graphics.cpp:3751-3758 is the same logic |
| Graphics.CountDestroyedSet | code/Graphics/GraphicsVk.cpp:3895-3904 | destroying a set removes, for each counted type, its layout's bindings of that type; the copy at code/Graphics/Graphics.cpp:3817-3825 is the same logic |
| Graphics.CreateThenDestroyRestores | code/Graphics/GraphicsVk.cpp:3829-3904 | destroying a set after creating it leaves every counter as it was |

## Left out

- The generic comparator of BlitSort: elements are `int` and `cmp(a, b) <= 0` is `a <= b`. Two equal `int` elements cannot be told apart, so stability under a comparator that equates distinct values is not modelled.
- The adaptive paths of BlitSort are not modelled: `quad_swap`, `quad_merge`, `quad_merge_block`, `forward_merge`, `partial_forward_merge`, `tail_merge`, `blit_merge`, `blit_merge_block`, `quadsort_swap`, `blit_partition`, `blit_reverse_partition`, `parity_tail_swap_eight`, `parity_tail_flip_eight`, and the pivot selection (`blit_median_of_*`, whose sampling uses a random number). The source's proof obligations for them are the same sorted-and-permutation contract; their size made them too costly for the verifier here.
- BlitSortAnalyze.BlitSort: sorts the array only when it is shorter than 32 elements, or when `blit_analyze` finds it already ascending or strictly descending. Otherwise it returns `false` and leaves the array unchanged, where the source runs one of the adaptive sorts above. `BlitAnalyze` returns the decision it takes (a `Plan`), and lemmas state when each plan is chosen.
- BlitSortPartition.DefaultPartition: the source's 4x unrolled loop is the two methods `PartitionFour` and `PartitionRest`, with the same element order. It requires `swapSize >= 1` because every caller passes a non-empty swap buffer.
- BlitSortTail.UnguardedInsert: requires `offset >= 2`, because `tail_swap` is its only caller and always sorts at least the first 4 elements first.
- BlitSortMerge.MonoboundBinaryFirst: requires `top >= 1`, because its callers pass a non-empty run.
- BlitSortRotate.RotateFusedLeft: requires both parts to be non-empty, because `trinity_rotation` reaches this branch only then.
- BlitSortRotate.RotateFusedRight: requires both parts to be non-empty, for the same reason.
- MathVector.int2Add: coordinates are unbounded, so 32-bit wrap-around is not modelled. The same holds for `int2Sub` and the `recti*` helpers.
- ModelBake.VertexCount: does not itself check that the attribute counts agree. The debug-only `ASSERT` at code/Assets/Model.cpp:524 (and code/Graphics/Model.cpp:454) inside the buffer setup is not modelled, so `SetupBuffers` takes the first non-zero count as given. The same condition, checked by `ASSERT_ALWAYS` in the mesh totals, is modelled by `CountsAgree` in `FirstNonZeroCount` and `CountMeshTotals`.
- VirtualFs.StripMountPath: paths are unbounded sequences. The fixed-capacity output buffer that `Str::Copy(outPath, outPathSize, ...)` fills, and the truncation of longer paths, are not modelled.
- VirtualFs.ResolveDiskPath: the same holds for the `PATH_CHARS_MAX` temporary and the `dstPathSize` buffer that `JoinUnixStyle` writes: a joined path longer than the buffer is not cut short here.
- ModelBake.NumVertexBuffers: requires `strides[0] != 0`, the source's assertion that a layout has at least one vertex buffer.
- GfxBackendVk.MergeQueuesCorrect: proves the merge correct only for up to 3 queues, the number the source creates. `MergeNeedsAtMostThreeQueues` shows that with 4 queues two same-family queues can survive the merge.
- Concurrency: mutexes, atomics and CAS retry loops, signals, the submit thread, the MemPro send/receive threads and the VirtualFS worker. Each operation runs alone here. The ring buffer's wait on a full or empty buffer is an empty result.
- OS and network I/O: sockets, files, events, stack walks, disk reads and writes, temp-file moves, directory watching, the Android asset manager and the remote command transport. Requests are queued and dequeued, and are not carried out.
- Vulkan, volk, VMA, OffsetAllocator and cgltf calls, as opaque handles and success flags.
- Floating point: vectors, matrices, quaternions, `RectFloat`, bounds, tangent generation, viewports, anisotropy and timers.
- `Array::Pop(i)` is outside the files modelled here (it lives in Array.h): it is taken as an ordered removal, and `RemoveAndSwap` as copying the last element into the slot and popping.
- `IndexToId` is outside the files modelled here: it is taken as `index + 1`, which matches the source's "0 means none" convention.
- A hash masked with `capacity - 1` is modelled as the hash modulo the capacity. The two agree because the capacity is a power of two.
- `Clamp` is outside the files modelled here: it is taken as `Min(Max(v, lo), hi)`. `MinImagesAsWrittenWithoutLimit` covers the other order as well.
- The `RectInt` struct declaration is outside the files modelled here. Its fields are taken from the member bodies (`xmin`, `ymin`, `xmax`, `ymax`).
- Logging, Tracy profiling, debug callbacks, statistics dumps and leak stack traces.

## Findings

| source | as written | input that shows it | evidently intended | confidence | as-written member | corrected member |
|---|---|---|---|---|---|---|
| code/Core/MathAll.h:1015-1019 (also code/Core/MathVector.h:1031-1035, code/Math/MathVector.h:1022-1026) | `GetCorners` stores every corner into `corners[0]` | any rectangle: afterwards `corners[0]` holds corner 3 and `corners[1..3]` are not written | `corners[i] = GetCorner(rc, i)` for i in 0..3 | not executed | MathAll.RectInt.GetCornersAsWritten, MathVector.CornersAsWrittenDiffer | MathAll.RectInt.GetCorners, MathVector.rectiGetCorners |
| code/Assets/Model.cpp:674-680 (also code/Graphics/Model.cpp:733-739) | the count of leading non-zero vertex strides has no bound on the index | a layout whose 4 strides are all non-zero: the loop reads `strides[4]`, past the array | stop at the number of stride slots | not executed | ModelBake.NumVertexBuffersAsWritten, ModelBake.NumVertexBuffersReadsPastEnd | ModelBake.NumVertexBuffers |
| code/Assets/Model.cpp:97-106 (also code/Graphics/Model.cpp:320-329) | the search for a TANGENT attribute runs until an empty semantic, with no bound on the index | a layout whose attribute slots are all filled and none is TANGENT: the loop reads past the last slot | stop at the number of attribute slots | not executed | ModelBake.LayoutHasTangentsAsWritten, ModelBake.LayoutHasTangentsReadsPastEnd | ModelBake.LayoutHasTangents |
| code/Graphics/GfxBackendVk.cpp:323-330 | the overlapping-flags loop skips a type when its heap IS device-local while `localdeviceHeap` is set | `localdeviceHeap` set and flags 0x2; type 0 has flags 0x2 on a heap that is not device-local, type 1 has flags 0x3 on a device-local heap: type 0 is returned, on the heap the caller excluded | skip heaps that are NOT device-local, as the first loop and `code/Graphics/GfxBackend.cpp:3828-3857` do | not executed | GfxBackendVk.FindDeviceMemoryTypeAsWritten, GfxBackendVk.FindDeviceMemoryTypeAsWrittenIgnoresLocalHeap | GfxBackend.FindDeviceMemoryType, GfxBackend.MemoryTypeForSound |
| code/Graphics/GraphicsVk.cpp:1306-1307 (also code/Graphics/Graphics.cpp:2227-2228) | `min(Clamp(minImageCount + 1, 1, maxImageCount), 3)` | `maxImageCount == 0` (Vulkan's "no limit") with `minImageCount == 2`: the request is 0 images (or 1, depending on Clamp's order), below the surface's minimum | treat `maxImageCount == 0` as no upper limit | not executed | Graphics.MinImagesAsWrittenWithoutLimit | Graphics.MinImages, Graphics.MinImagesAgreeWithLimit |
