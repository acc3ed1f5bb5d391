# Verified models of the parallel and cache-aware sorting engines

This project models, in Dafny, the partitioning and sorting engines that the repository compares its
quicksort with, and proves them correct over an arbitrary strict weak ordering or predicate. Block
sizes, chunk sizes, thread counts, thresholds and stack sizes are parameters throughout.

Two engines are concurrent protocols. They are state machines whose steps lie between critical
sections, atomic operations and barriers; the theorems hold for every schedule of any number of
threads, and a class with in-place methods performs the same steps on an array. A third is parallel
between barriers: its phases run under every scheduler of the threads' steps.

| files | engine |
|---|---|
| `ChunkSide`, `ChunkRound`, `ChunkProof`, `ChunkPartition`, `ChunkMachine` | MCSTL partition: chunk fetching, neutralisation, reservation of spots for leftover chunks |
| `BlockProtocol`, `BlockProof`, `BlockPermutation`, `BlockMachine`, `PackedPointers` | ips4o block permutation with atomic bucket pointers |
| `SumTree`, `Schedules`, `ArrayTree`, `Strides`, `TreePartition`, `TreeThreads` | barrier-phased partition with a prefix-sum tree |
| `Orders`, `PdqPartition`, `PdqBranchless`, `PdqSteps`, `PdqSort` | pattern-defeating quicksort |
| `HoleBlocks`, `HolePartition`, `StackSort` | BlockQuicksort with a moving hole, and its explicit-stack driver |
| `OpenRanges`, `GlibcSort` | glibc `_quicksort`, with the stack invariant shared with `StackSort` |
| `Sequence`, `BackScan`, `MaxIndex`, `Transpose`, `BlockTranspose`, `SampleSegments`, `SampleSort`, `ThreeWay` | PBBS sample sort and its sequence operations |
| `Classifier` | ips4o classification by an implicit search tree |

`ChunkSide` describes one end of the array in coordinates counted from that end, so each argument about
chunks is made once for both ends. `BlockProtocol` records with an auxiliary variable where each block
is; nothing the workers do depends on it. Every method that changes an array is proved against a
predicate on the old and new contents or a step function, and the theorems are about those.

Three expectations do not hold, and each has its exact condition:

- MCSTL's partition returns 1 on an empty array. The result is the split point if and only if there is
  at least one element (`ChunkMachine.ParallelPartition`).
- The reverse scans reduce their blocks from left to right. For an associative operation with a unit
  they agree with the serial reverse scan if and only if
  it is commutative (`BackScan.BackScanExact`).
- `maxIndex` starts each block's search at index 0. With more than two blocks its answer is a maximum if
  and only if some maximum lies in the first block or in a block that does not start with one
  (`MaxIndex.MaxIndex`).

`dafny verify dfyconfig.toml` checks the project.

## Model

| member | source | states |
|---|---|---|
| ChunkMachine.ParallelPartition | Code/Profiling/FriasPetitParPar/mcstl_partition.h:77-327 | For every scheduler, predicate, chunk size and thread count: the array is permuted, one parallel round runs exactly if there are two chunks for every thread, and the returned index is the exact split point if and only if the array is not empty (an empty array yields 1). |
| ChunkMachine.OneRound | Code/Profiling/FriasPetitParPar/mcstl_partition.h:92-276 | A round from any state the loop can start it in ends with everything below left satisfying the predicate, everything above right failing it, and fewer than (threads + 1) chunks of cells left in between. |
| ChunkPartition.EveryInterleaving | Code/Profiling/FriasPetitParPar/mcstl_partition.h:113-276 | After any schedule of any length the contents are a permutation; while nobody has left the round, held chunks are pairwise disjoint, the source and target ranges of all swap_ranges calls under way are pairwise disjoint, a thread past the loop holds at most one leftover chunk with fewer than chunk_size cells unfetched, and every misplaced cell outside the cursors lies in some thread's chunk or in a spot being filled; when all are done the middle zone is all that is unknown. |
| ChunkPartition.StepKeeps | Code/Profiling/FriasPetitParPar/mcstl_partition.h:113-276 | Every step an unblocked thread can take, at every program point, touches only existing cells and keeps the ownership invariant. |
| ChunkPartition.NoDeadlock | Code/Profiling/FriasPetitParPar/mcstl_partition.h:190-212 | As long as some thread is not done, some thread can move past or up to its barrier. |
| ChunkPartition.StepWorks | Code/Profiling/FriasPetitParPar/mcstl_partition.h:121-276 | Each enabled step of each thread strictly lowers a natural measure, so every interleaving terminates. |
| ChunkProof.FetchLeftKeeps | Code/Profiling/FriasPetitParPar/mcstl_partition.h:123-134 | Taking a left chunk in the critical section keeps the whole invariant, including disjointness of the chunks of both sides. |
| ChunkProof.FetchRightKeeps | Code/Profiling/FriasPetitParPar/mcstl_partition.h:136-147 | The mirror image; the invariant includes that a thread which gets no right chunk leaves with at most its left one. |
| ChunkProof.ExchangeKeeps | Code/Profiling/FriasPetitParPar/mcstl_partition.h:169-177 | Neutralising a pair of cells of the thread's own two chunks keeps the invariant of all other threads. |
| ChunkProof.OthersElsewhere | Code/Profiling/FriasPetitParPar/mcstl_partition.h:152-178 | Two threads inside the neutralising loop never stand on the same cell. |
| ChunkProof.SingleKeeps | Code/Profiling/FriasPetitParPar/mcstl_partition.h:192-196 | Fixing the middle zone from the final leftover counts keeps the invariant: from here on both reservation tables obey their law and both zones fit between the cursors and the array ends. |
| ChunkProof.ReserveStepKeeps | Code/Profiling/FriasPetitParPar/mcstl_partition.h:200-210 | A leftover chunk that is already in place writes an index within the table and keeps the invariant, by which each reservation has exactly one owner. |
| ChunkProof.OwnPlaceFree | Code/Profiling/FriasPetitParPar/mcstl_partition.h:200-210 | No other thread owns the spot in which a chunk is already in place. |
| ChunkSide.SpotExists | Code/Profiling/FriasPetitParPar/mcstl_partition.h:214-226 | Pigeonhole: a thread with a leftover chunk outside the zone and no reservation finds an unreserved spot among as many spots as there are leftover chunks. |
| ChunkProof.SpotFound | Code/Profiling/FriasPetitParPar/mcstl_partition.h:214-250 | So the search of the table never fails (swapstart is never -1), on either side, and the spot found belongs to nobody. |
| ChunkSide.DestinationGood | Code/Profiling/FriasPetitParPar/mcstl_partition.h:234 | The next destination cell of a chunk being moved lies inside the zone and is on its proper side, so it is nobody else's to repair. |
| ChunkPartition.SwapsApart | Code/Profiling/FriasPetitParPar/mcstl_partition.h:214-258 | At every moment of every schedule the chunk that one thread moves and the spot it fills overlap neither those of another thread nor, for the left and right end, each other. |
| ChunkSide.MovesApart | Code/Profiling/FriasPetitParPar/mcstl_partition.h:214-235 | On one side, chunks being moved and the spots reserved for them lie apart: a source is never inside the zone that holds the targets. |
| ChunkProof.SwapLeftKeeps | Code/Profiling/FriasPetitParPar/mcstl_partition.h:234 | Each single exchange of a left swap_ranges keeps the invariant. |
| ChunkProof.SwapRightKeeps | Code/Profiling/FriasPetitParPar/mcstl_partition.h:257 | The same on the right. |
| ChunkProof.RoundSettled | Code/Profiling/FriasPetitParPar/mcstl_partition.h:273-275 | When the last barrier opens every thread has reached it and every cell outside the middle zone is on its proper side. |
| ChunkProof.PublishedKeeps | Code/Profiling/FriasPetitParPar/mcstl_partition.h:273-275 | After the first publication the last barrier is open to every other thread, which keeps the published state. |
| ChunkMachine.AllThreadsUsed | Code/Profiling/FriasPetitParPar/mcstl_partition.h:90-93 | Whenever a round starts there are two chunks for each of the maximal number of threads. |
| ChunkMachine.FinalPass | Code/Profiling/FriasPetitParPar/mcstl_partition.h:285-325 | The sequential pass splits what is left; the returned index is the split point except when the unknown cells start at the very end of the array. |
| ChunkMachine.Machine.Move | Code/Profiling/FriasPetitParPar/mcstl_partition.h:113-276 | The in-place step of a thread on the shared cells, cursors and tables equals the step function the proofs are about. |
| ChunkMachine.Machine.RunRound | Code/Profiling/FriasPetitParPar/mcstl_partition.h:113-276 | Running threads in any order until nobody can move ends with all threads done and the invariant intact. |
| BlockMachine.PermuteAll | Code/Profiling/ips4o/ips4o/block_permutation.hpp:126-147 | From any layout with contiguous unprocessed blocks and enough room per bucket, under any scheduler and number of workers, the blocks of class c end in exactly the first F_c slots of bucket c, one of them possibly in the single overflow buffer. |
| BlockPermutation.EveryInterleaving | Code/Profiling/ips4o/ips4o/block_permutation.hpp:65-147 | In every interleaving and at every moment: write pointers stay within their regions, every block is where it is recorded to be, no slot is claimed twice, no slot is stored to while a reader has yet to copy it, and at most one block has gone to an overflow buffer; on completion every region is full of its own class. |
| BlockPermutation.StepKeeps | Code/Profiling/ips4o/ips4o/block_permutation.hpp:65-119 | Every atomic step of every worker touches only existing slots and keeps the invariant. |
| BlockPermutation.RegionIsFull | Code/Profiling/ips4o/ips4o/block_permutation.hpp:89-147 | Counting: once all workers are done the first F_b slots of bucket b hold each block of class b exactly once. |
| BlockPermutation.BlockArrived | Code/Profiling/ips4o/ips4o/block_permutation.hpp:134-146 | Once all workers are done every block lies in a slot that the write pointer of its own class has passed. |
| BlockProof.RoomLeft | Code/Profiling/ips4o/ips4o/block_permutation.hpp:95-109 | A worker that is about to claim a slot always finds its write pointer below the F_c-th slot, so no write pointer passes its region. |
| BlockProof.ChargesDiffer | Code/Profiling/ips4o/ips4o/block_permutation.hpp:95-118 | The slots a write pointer has passed are charged to different blocks of the class. |
| BlockProof.StoreSlotDead | Code/Profiling/ips4o/ips4o/block_permutation.hpp:104-107 | After waiting for isReading to become false, no live block is left in the slot that is overwritten. |
| BlockProof.EmptyOrRead | Code/Profiling/ips4o/ips4o/block_permutation.hpp:96-107 | The slot a writer is about to claim as empty holds a live block only if some worker has claimed it for reading and not copied it yet. |
| BlockProof.SpillAlone | Code/Profiling/ips4o/ips4o/block_permutation.hpp:98-103 | Only one worker can ever be writing to its overflow buffer, and for the slot just past the complete blocks. |
| BlockProof.LeaveInPlace | Code/Profiling/ips4o/ips4o/block_permutation.hpp:110-112 | A claimed slot whose block belongs there is settled without moving it; every block stays where it is recorded. |
| BlockPermutation.RegionsHaveRoom | Code/Profiling/ips4o/ips4o/block_permutation.hpp:131 | Block-aligned bucket boundaries leave room for all full blocks of the bucket and end at most one block past the complete blocks. |
| BlockPermutation.NoDeadlock | Code/Profiling/ips4o/ips4o/block_permutation.hpp:105 | A worker waits only for readers, and a reader never waits, so some worker can always move. |
| BlockPermutation.StepWorks | Code/Profiling/ips4o/ips4o/block_permutation.hpp:134-146 | Each step strictly lowers a natural measure: every schedule terminates although workers chase each other through the cycles. |
| BlockMachine.BucketPointers.IncWrite | Code/Profiling/ips4o/ips4o/bucket_pointers.hpp:84-95 | Returns the pair before the change and moves only the write pointer. |
| BlockMachine.BucketPointers.DecRead | Code/Profiling/ips4o/ips4o/bucket_pointers.hpp:100-114 | Returns the pair before the change and moves only the read pointer; StartRead is the preceding counter step. |
| PackedPointers.PackedWord.DecRead | Code/Profiling/ips4o/ips4o/bucket_pointers.hpp:100-108 | Both pointers share one word: subtracting from its upper half modulo the word returns both old pointers, mask and sign included, and lowers the read pointer alone, also below zero. |
| PackedPointers.PackedWord.IncWrite | Code/Profiling/ips4o/ips4o/bucket_pointers.hpp:83-89 | Adding to the lower half modulo the word returns both old pointers and moves the write pointer alone, also while the read pointer is negative. |
| PackedPointers.MaskedIs | Code/Profiling/ips4o/ips4o/bucket_pointers.hpp:107 | The mask of the read pointer changes nothing exactly if the pointer is a multiple of the block size. |
| PackedPointers.Lowered | Code/Profiling/ips4o/ips4o/bucket_pointers.hpp:104-107 | Two's complement subtraction on the upper half borrows beyond the word exactly when the read pointer passes zero, and then still stands for the lowered pointer. |
| BlockMachine.BucketPointers.StopRead | Code/Profiling/ips4o/ips4o/bucket_pointers.hpp:119-121 | Lowers the reading counter and nothing else. |
| BlockMachine.Sorter.Move | Code/Profiling/ips4o/ips4o/block_permutation.hpp:65-147 | The in-place step on blocks and bucket pointer objects equals the step function of the proofs. |
| TreeThreads.ParallelPartition | Code/Profiling/FriasPetitParPar/parallel_partition.h:868-950 | For any thread count and any interleaving of the threads between barriers, the result is a permutation in which exactly the cells below the cut satisfy the predicate. |
| TreePartition.Balanced | Code/Profiling/FriasPetitParPar/parallel_partition.h:932-944 | The misplaced counts of the two sides have the same total. |
| TreePartition.CellsApart | Code/Profiling/FriasPetitParPar/parallel_partition.h:784-794 | The cells named by the tree for different pairs are all different, so the threads' shares never meet. |
| TreePartition.MisplacedRight | Code/Profiling/FriasPetitParPar/parallel_partition.h:937-944 | Every cell below the cut that fails the predicate is named by some pair. |
| TreePartition.MisplacedLeft | Code/Profiling/FriasPetitParPar/parallel_partition.h:937-944 | Every cell from the cut on that satisfies it is named by some pair. |
| TreePartition.OnePartition | Code/Profiling/FriasPetitParPar/parallel_partition.h:851-863 | Once all pairs are exchanged the strided partitions form one partition with its cut at the sum of the local sizes. |
| Strides.ExchangedDetermined | Code/Profiling/FriasPetitParPar/parallel_partition.h:806-847 | Any two orders of exchanging the same pairs give the same array. |
| Strides.SharesAddUp | Code/Profiling/FriasPetitParPar/parallel_partition.h:765-766 | The threads' shares of n items add up to n. |
| Strides.ShareSpan | Code/Profiling/FriasPetitParPar/parallel_partition.h:780-790 | A share starts at base * id + min(id, extra), where the code starts it, and ends where the next begins. |
| Strides.PosBelow | Code/Profiling/FriasPetitParPar/parallel_partition.h:889-890 | num_elems covers exactly the cells of the thread's stride inside the range. |
| SumTree.NodeSum | Code/Profiling/FriasPetitParPar/parallel_partition.h:697-725 | In a reduced tree every node holds the sum of its leaves. |
| ArrayTree.CeilPot2 | Code/Profiling/FriasPetitParPar/parallel_partition.h:18-24 | The least power of two not below the argument. |
| ArrayTree.RankIsPrefix | Code/Profiling/FriasPetitParPar/parallel_partition.h:191-196 | Climbing to the root computes the prefix sum of the leaves before a node. |
| ArrayTree.Tree.ReducePhase | Code/Profiling/FriasPetitParPar/parallel_partition.h:700-707 | Between two barriers the accesses of all threads to memory, interleaved in any way, turn one more level into sums and leave all lower levels alone. |
| ArrayTree.Tree.Reduce | Code/Profiling/FriasPetitParPar/parallel_partition.h:697-709 | From arbitrary leaves, under every scheduler of every phase, every inner node becomes the sum of its children, leaves unchanged. |
| ArrayTree.Tree.ReduceMisPhase | Code/Profiling/FriasPetitParPar/parallel_partition.h:711-725 | The same for both counts of misplaced elements in one phase, each thread writing its left and then its right node. |
| ArrayTree.SumsOver | Code/Profiling/FriasPetitParPar/parallel_partition.h:697-725 | However far each thread has read and written, nodes outside the level keep their values; once all are through, each node of the level is the sum of its children. |
| ArrayTree.Tree.Ith | Code/Profiling/FriasPetitParPar/parallel_partition.h:167-183 | Descending finds the item that linear search by prefix sums finds. |
| ArrayTree.Tree.AdvanceR | Code/Profiling/FriasPetitParPar/parallel_partition.h:134-148 | From the r-th misplaced element on the right, advancing by k arrives at the (r + k)-th, whenever it exists. |
| ArrayTree.Tree.BackwardL | Code/Profiling/FriasPetitParPar/parallel_partition.h:151-164 | From the r-th misplaced element on the left, going back by k arrives at the (r - k)-th. |
| SumTree.LocateUnique | Code/Profiling/FriasPetitParPar/parallel_partition.h:167-183 | Prefix sum search is the inverse of the prefix sum. |
| TreeThreads.LocalPhase | Code/Profiling/FriasPetitParPar/parallel_partition.h:886-917 | However the turns of the threads interleave, every stride is partitioned, its leaf holds its left size, and the contents are permuted. |
| TreeThreads.MisplacedPhase | Code/Profiling/FriasPetitParPar/parallel_partition.h:933-944 | However the writes interleave, each leaf gets the positive part of local size minus fair share on one side and of its negative on the other. |
| TreeThreads.CalculateElementsToSwap | Code/Profiling/FriasPetitParPar/parallel_partition.h:759-794 | A thread gets its fair share of the pairs and the tree positions of the first of them on both sides. |
| TreeThreads.ExchangePair | Code/Profiling/FriasPetitParPar/parallel_partition.h:817-821 | The iterators of a thread, advanced cell by cell, stand on the two cells of the next pair of its share; exchanging them does that pair and no other. |
| TreeThreads.BeginRun | Code/Profiling/FriasPetitParPar/parallel_partition.h:807-813 | A run is as long as the leaves on both sides and the thread's own share allow. |
| TreeThreads.EndRun | Code/Profiling/FriasPetitParPar/parallel_partition.h:823-846 | Behind a run both walkers stand on the next pair of the share, in the same or in other leaves. |
| TreeThreads.SwapStep | Code/Profiling/FriasPetitParPar/parallel_partition.h:798-848 | Any step of any thread keeps every walker on its own next pair and the exchanged pairs exactly those behind the walkers. |
| TreeThreads.SharesStep | Code/Profiling/FriasPetitParPar/parallel_partition.h:780-790 | The next pair of one thread belongs to no other thread's share. |
| TreeThreads.SwapPhase | Code/Profiling/FriasPetitParPar/parallel_partition.h:851-863 | All threads together, pair by pair in any interleaving, exchange every pair once. |
| PdqSort.Sort | Code/Profiling/pdqsort/pdqsort.h:508-520 | Sorts any range under any strict weak order; along every path of its tree of cuts at most floor(log2 n) cuts are highly unbalanced, and no path is longer than 14 floor(log2 n) + 1. |
| PdqSort.Log2Is | Code/Profiling/pdqsort/pdqsort.h:67-73 | The logarithm the budget starts from is rounded down: 2^log <= n < 2^(log + 1). |
| PdqSort.AlongPath | Code/Profiling/pdqsort/pdqsort.h:412-503 | Following any choice of sides down the tree of cuts meets no more cuts, and no more highly unbalanced ones, than the depth and the bad count say. |
| PdqSort.Loop | Code/Profiling/pdqsort/pdqsort.h:412-503 | Sorts for any budget of bad cuts, plain or branchless; when not leftmost it needs and keeps that the cell before the range is no greater than any cell of it; the tree of cuts it makes has at most bad_allowed highly unbalanced cuts on any path and never two left cuts in succession. |
| PdqSort.LevelsLogarithmic | Code/Profiling/pdqsort/pdqsort.h:453-456 | A range can be cut with both sides below 7/8 at most 6 log2 n times. |
| PdqSort.DepthBounded | Code/Profiling/pdqsort/pdqsort.h:412-503 | A path of a tree of proper cuts is at most twice as long as the balanced levels of its size and its highly unbalanced cuts together, plus one. |
| PdqSort.ExtendsStep | Code/Profiling/pdqsort/pdqsort.h:412-503 | Appending the next cut of the loop keeps that whatever may follow yields a proper tree within the budget. |
| PdqSort.EqualRun | Code/Profiling/pdqsort/pdqsort.h:441-452 | A pivot no greater than the cell before the range is the least element, so what partition_left puts before it is all equal and needs no sorting. |
| PdqSort.LeftCut | Code/Profiling/pdqsort/pdqsort.h:441-452 | After a left cut everything remaining is strictly greater than the new preceding cell, so no second left cut follows at once. |
| PdqSort.RightCut | Code/Profiling/pdqsort/pdqsort.h:446-501 | After a right cut and the sorting of its left side the loop invariant holds for the right side. |
| PdqSort.AfterCut | Code/Profiling/pdqsort/pdqsort.h:453-495 | The range ends here exactly if the cut is highly unbalanced and was the last allowed, or is not, the range was split already, and each side is a few inversions from order; otherwise it stays cut at the same pivot, its sides shuffled exactly if it is highly unbalanced. |
| PdqSort.TakeTurn | Code/Profiling/pdqsort/pdqsort.h:420-495 | A turn that cuts has a median of three (or of three such medians) as its pivot, and takes the left cut exactly if that pivot is not greater than the cell before the range. |
| PdqPartition.RightDetermined | Code/Profiling/pdqsort/pdqsort.h:202-378 | The pivot's place is the count of smaller elements, so any two right partitions, plain or branchless, return the same position and the same already_partitioned flag. |
| Orders.CountLessIs | Code/Profiling/pdqsort/pdqsort.h:202-378 | The count that fixes the pivot's place is the number of cells holding a smaller element. |
| PdqPartition.PartitionRight | Code/Profiling/pdqsort/pdqsort.h:341-378 | Smaller elements go left, the rest right, the pivot between; the flag is set exactly when the range was split already. A witness not less than the pivot bounds the unguarded first scan. |
| PdqPartition.PartitionLeft | Code/Profiling/pdqsort/pdqsort.h:385-408 | What does not exceed the pivot goes left and what exceeds it right; the unguarded scan is stopped by the pivot. |
| PdqBranchless.PartitionRightBranchless | Code/Profiling/pdqsort/pdqsort.h:202-333 | Promises what PartitionRight promises, for every block size, and therefore refines it. |
| PdqBranchless.SwapOffsets | Code/Profiling/pdqsort/pdqsort.h:175-194 | In both modes the marked left cells take the marked right elements in order and the other way round; the cyclic mode shifts by one. |
| PdqBranchless.MoveCycle | Code/Profiling/pdqsort/pdqsort.h:185-193 | The cyclic move with a hole is a permutation with the same left cells as pairwise swaps. |
| PdqBranchless.FillLeft | Code/Profiling/pdqsort/pdqsort.h:238-251 | Writing every position but advancing only past misplaced ones leaves exactly the misplaced positions in the buffer, never past its end. |
| PdqBranchless.FillRight | Code/Profiling/pdqsort/pdqsort.h:252-265 | The mirror image with offsets from one. |
| PdqBranchless.ExchangeBlocks | Code/Profiling/pdqsort/pdqsort.h:267-274 | As many pairs as both buffers have are exchanged and a block with an empty buffer is skipped. |
| PdqBranchless.LastSizes | Code/Profiling/pdqsort/pdqsort.h:277-290 | The two last blocks meet; a pending one keeps its size, otherwise they share evenly, and in the crossed case last == first - 1 the truncating division gives 0 and -1. |
| PdqBranchless.LastBlocks | Code/Profiling/pdqsort/pdqsort.h:277-325 | After the block loop the rest, crossed or not, is split with one block at most still pending. |
| PdqBranchless.SweepLeft | Code/Profiling/pdqsort/pdqsort.h:316-320 | The remaining misplaced elements of a left block go behind its others. |
| PdqBranchless.SweepRight | Code/Profiling/pdqsort/pdqsort.h:321-325 | The mirror image. |
| PdqSteps.InsertUnguarded | Code/Profiling/pdqsort/pdqsort.h:100-118 | The scan without a bound check stops at the cell before the range at the latest and sinks the element into place. |
| PdqSteps.UnguardedInsertionSort | Code/Profiling/pdqsort/pdqsort.h:100-118 | Sorts when the cell before the range is no greater than any cell of it. |
| PdqSteps.PartialInsertionSort | Code/Profiling/pdqsort/pdqsort.h:124-148 | Succeeds exactly if at most 8 pairs that do not involve the last element are out of order; success means sorted, and a range already in order succeeds and is left alone. |
| PdqSteps.SinksBy | Code/Profiling/pdqsort/pdqsort.h:131-144 | An element sinks by as many places as there are greater elements before it. |
| PdqSteps.ChoosePivot | Code/Profiling/pdqsort/pdqsort.h:427-436 | The median of the first, middle and last cell goes to begin, above 128 cells the median of three such medians; the range is permuted, and some other cell is not less, which is the witness partition_right needs. |
| PdqSteps.Shuffle | Code/Profiling/pdqsort/pdqsort.h:464-489 | Exchanges exactly the cells the code exchanges: none in short sides, the outermost with the quarter points, and two more on each end in long ones. |
| PdqSteps.ShuffledAt | Code/Profiling/pdqsort/pdqsort.h:464-489 | The shuffle is its own inverse: cells change places in pairs inside the side. |
| PdqSteps.NeighboursExchanged | Code/Profiling/pdqsort/pdqsort.h:124-148 | The count of inversions drops by exactly one whenever two neighbours out of order are exchanged. |
| HolePartition.BlockPartition | Code/Profiling/EdelkampWeiss/partition.h:253-507 | For every block size: nothing greater than the pivot before the returned position, the pivot at it, nothing less after it, and the range is permuted. The position is where the scans meet, less the cells found there that may go right, plus those beyond that may go left; the scans meet in the middle of up to two blocks. |
| HolePartition.BlockPartitionEqual | Code/Profiling/EdelkampWeiss/partition.h:511-776 | The window holds exactly pivot-equal elements, with nothing greater before and nothing less after it, as a permutation. It has one cell exactly where the search is skipped or finds nothing: the search runs when the pivot repeats a neighbouring sample or a small range splits badly, and some block has cells left over; on that block's side all cells behind the window up to the stop are strictly greater (less), and the stop is the end of the range or where the window is no more than a quarter of the cells seen. |
| HolePartition.EqualSplit | Code/Profiling/EdelkampWeiss/partition.h:253-507 | Among equal elements the pivot lands at the mirror image of the place where the scans meet. |
| HolePartition.Rebalance | Code/Profiling/EdelkampWeiss/partition.h:351-404 | When both buffers have room beyond a pending block, the two continued scans cover every unknown cell within the buffers' room. |
| HolePartition.ShareUnknown | Code/Profiling/EdelkampWeiss/partition.h:355-380 | The sharing out satisfies 0 <= shiftL <= B - upper_left, 0 <= shiftR <= B - upper_right and uses up all unknown cells, as the assertions demand; it is even unless a buffer lacks room. |
| HolePartition.LastBlocks | Code/Profiling/EdelkampWeiss/partition.h:330-424 | In each of the four cases the last two lists cover everything between the walls, hold every cell that may go over exactly once, and the walls meet where the code makes them meet. |
| HolePartition.Round | Code/Profiling/EdelkampWeiss/partition.h:272-328 | One turn of the block loop keeps the state between turns, hole included, narrows the unknown range, and scans one more block on each side that had none pending. |
| HoleBlocks.Trade | Code/Profiling/EdelkampWeiss/partition.h:309-321 | Moving pairs through the hole puts every traded cell on its proper side and moves the hole to the last right cell. |
| HolePartition.SweepLeft | Code/Profiling/EdelkampWeiss/partition.h:459-479 | Moves the remaining listed elements of the left block behind its others even when that touches the cell before the block. |
| HolePartition.SweepRight | Code/Profiling/EdelkampWeiss/partition.h:482-498 | The mirror image through the hole. |
| HolePartition.GatherRight | Code/Profiling/EdelkampWeiss/partition.h:691-718 | Gathers exactly the duplicates of the pivot up to the first position where they no longer make up a quarter of the cells seen, in a contiguous window of equals, keeps the partition, and touches nothing beyond. |
| HolePartition.GatherLeft | Code/Profiling/EdelkampWeiss/partition.h:736-761 | The same below the pivot, never looking at the first cell of the range. |
| StackSort.QuickSort | Code/Profiling/EdelkampWeiss/quicksort.h:64-171 | Sorts for every depth limit, with or without duplicate windows; no cell takes part in more partitions than the limit; a stack of k ranges never overflows while n <= IS_THRESH * 2^(k-1), so 40 pairs suffice for 20 * 2^39 elements. |
| StackSort.DeepCut | Code/Profiling/EdelkampWeiss/quicksort.h:77-95 | A partition counts once more for exactly the cells of its range, and both depths noted for its parts say how often their cells have been partitioned. |
| StackSort.PushRoom | Code/Profiling/EdelkampWeiss/quicksort.h:77-95 | A range above the threshold finds room on the stack for the longer part of its cut. |
| StackSort.EqualCuts | Code/Profiling/EdelkampWeiss/partition.h:885-890 | The sample left at both ends by the median of three completes the partition of the inner range to one of the whole range. |
| StackSort.CutCurrent | Code/Profiling/EdelkampWeiss/quicksort.h:77-95 | One partition and push keeps the pending ranges open, disjoint and halving, skips the window, and lowers the termination measure. |
| StackSort.Partition | Code/Profiling/EdelkampWeiss/partition.h:876-890 | Cuts the whole range, ends included, at the median of its first, middle and last cell. |
| StackSort.SortCurrent | Code/Profiling/EdelkampWeiss/quicksort.h:96-111 | Sorting the current range takes it off the pending ones and keeps the rest of the invariant. |
| GlibcSort.QuickSort | Code/Profiling/NaiveQuicksort/stdQuicksort.cpp:85-273 | Sorts any array of fewer than 2^width elements on a stack of width nodes. |
| GlibcSort.SortRanges | Code/Profiling/NaiveQuicksort/stdQuicksort.cpp:104-220 | The stack never overflows and what is left are consecutive segments of at most MAX_THRESH + 1 cells, in order between each other. |
| OpenRanges.CutIntoSegments | Code/Profiling/NaiveQuicksort/stdQuicksort.cpp:104-220 | If every window of far + 2 cells contains a cut, the cuts divide the array into segments of at most far + 1 cells that are in order between each other. |
| GlibcSort.Collapse | Code/Profiling/NaiveQuicksort/stdQuicksort.cpp:149-184 | The walls stop inside the range (right >= lo, left <= hi, so the unsigned distances are true ones) with nothing greater than the pivot left of them and nothing less right of them, where both have passed equally many cells that were to be exchanged, which fixes their places. |
| GlibcSort.MedianOfThree | Code/Profiling/NaiveQuicksort/stdQuicksort.cpp:134-143 | Leaves the median of the first, middle and last cell in the middle, with no greater one in front and no smaller one at the end. |
| GlibcSort.StackRoom | Code/Profiling/NaiveQuicksort/stdQuicksort.cpp:207-218 | The j-th pending range has at most n / 2^j cells, so pending ranges worth stacking number at most width. |
| OpenRanges.NewCut | Code/Profiling/NaiveQuicksort/stdQuicksort.cpp:195-218 | A wall inside a cut-off range cuts the whole array: nothing on its right is less than anything on its left. |
| OpenRanges.StackedSplit | Code/Profiling/NaiveQuicksort/stdQuicksort.cpp:207-218 | Stacking the larger part and keeping the smaller one, at most half as long, preserves the halving and disjointness of the stack. |
| GlibcSort.PlaceLeast | Code/Profiling/NaiveQuicksort/stdQuicksort.cpp:240-245 | The least of the first MAX_THRESH + 1 cells is the least of all, and after the swap it stands in front as a sentinel. |
| GlibcSort.InsertNext | Code/Profiling/NaiveQuicksort/stdQuicksort.cpp:250-272 | The unguarded scan stops at the front at the latest, and the element moves down at most MAX_THRESH places. |
| GlibcSort.ShortMove | Code/Profiling/NaiveQuicksort/stdQuicksort.cpp:252-256 | Where the prefix is sorted and the input nearly so, the insertion point is at most a threshold below. |
| GlibcSort.RotateColumns | Code/Profiling/NaiveQuicksort/stdQuicksort.cpp:261-270 | Byte column by byte column the loops rotate whole elements of any size: the one at run_ptr goes to tmp_ptr, the others move up by one. |
| SampleSort.SampleSort | Code/Profiling/PBBScomparisonSort/sampleSort/sampleSort.h:56-128 | Sorts any range under any strict weak order whatever the hash picks; every recursive call gets a strictly shorter range. |
| SampleSort.ColumnShorter | Code/Profiling/PBBScomparisonSort/sampleSort/sampleSort.h:112-124 | A segment that is sorted recursively lacks one of the first two pivots, which are elements of the range, so it is shorter than the range, also when all elements are equal. |
| SampleSort.Sizes | Code/Profiling/PBBScomparisonSort/sampleSort/sampleSort.h:60-63 | The rows are the fewest that hold the range, and the segments half of the root less one, rounded down. |
| SampleSegments.MergeSeq | Code/Profiling/PBBScomparisonSort/sampleSort/sampleSort.h:34-50 | For sorted pivots the count of segment y is the number of row elements with exactly y pivots less than them, plus one for those equal to some pivot, and these stand next to each other in segment order; without elements or pivots nothing is written. |
| SampleSegments.SegmentIsCount | Code/Profiling/PBBScomparisonSort/sampleSort/sampleSort.h:39-49 | Among sorted pivots an element falls into the segment numbered by the pivots less than it, one higher if it equals a pivot. |
| SampleSegments.SegmentsOrdered | Code/Profiling/PBBScomparisonSort/sampleSort/sampleSort.h:39-48 | No element of a later segment is less than one of an earlier segment. |
| SampleSegments.SegmentOfEquals | Code/Profiling/PBBScomparisonSort/sampleSort/sampleSort.h:43-47 | A segment between two equal pivots holds only elements equal to them, so the sort may skip it. |
| SampleSegments.PivotSegments | Code/Profiling/PBBScomparisonSort/sampleSort/sampleSort.h:39-48 | The first pivot falls into segment 1 and the second beyond it unless the two are equal. |
| SampleSort.SortRows | Code/Profiling/PBBScomparisonSort/sampleSort/sampleSort.h:92-98 | Rows, the shorter last one included, are sorted and their counts cover the whole range piece by piece. |
| SampleSort.Distribute | Code/Profiling/PBBScomparisonSort/sampleSort/sampleSort.h:101-106 | After scan, transpose, scan and block transpose the range is permuted and column c holds exactly the elements of segment c. |
| SampleSort.SortColumns | Code/Profiling/PBBScomparisonSort/sampleSort/sampleSort.h:111-124 | Sorting the segments one by one, skipping those between equal pivots, sorts the range. |
| SampleSort.ChoosePivots | Code/Profiling/PBBScomparisonSort/sampleSort/sampleSort.h:64-83 | Whatever the hash, the pivots are every fourth of the sampled elements in their sorted order, so they are in order and elements of the range. |
| SampleSort.SquareRootFits | Code/Profiling/PBBScomparisonSort/sampleSort/sampleSort.h:60-63 | From 49 elements on the exact square root gives at least two pivots and rows shorter than the range. |
| BlockTranspose.BlockTrans | Code/Profiling/PBBScomparisonSort/sampleSort/transpose.h:97-99 | The recursive block transpose brings every piece from its row-wise to its column-wise place and neither loses nor doubles an element, also for empty pieces and layouts without rows or columns. |
| BlockTranspose.BlockTransR | Code/Profiling/PBBScomparisonSort/sampleSort/transpose.h:70-95 | A recursive call moves exactly the pieces of its block; all other cells keep their contents. |
| BlockTranspose.GatheredPermutes | Code/Profiling/PBBScomparisonSort/sampleSort/transpose.h:70-99 | Cells filled piece by piece in transposed order hold the same multiset as the source. |
| BlockTranspose.FlipBag | Code/Profiling/PBBScomparisonSort/sampleSort/transpose.h:70-99 | Row by row and column by column the same pieces are met. |
| BlockTranspose.SameTotal | Code/Profiling/PBBScomparisonSort/sampleSort/sampleSort.h:102-105 | The lengths add up to the same total in both layouts. |
| BlockTranspose.ColumnsGathered | Code/Profiling/PBBScomparisonSort/sampleSort/sampleSort.h:104-113 | The cells from one column's offset to the next are those of the pieces in that column. |
| Transpose.Trans | Code/Profiling/PBBScomparisonSort/sampleSort/transpose.h:57-59 | Cell (i, j) arrives at (j, i), for every shape, the empty ones included. |
| Transpose.TransR | Code/Profiling/PBBScomparisonSort/sampleSort/transpose.h:35-55 | A recursive call transposes exactly its block and leaves all other cells alone. |
| Sequence.Scan | Code/Profiling/PBBScomparisonSort/sampleSort/sequence.h:193-206 | In either direction the blocked recursive scan leaves the serial scan of every block from the scanned block reductions, blocks in any order, also in place; for an associative operation, and a commutative one if the direction is backward, that is what the serial scan leaves. |
| Sequence.BlockSizes | Code/Profiling/PBBScomparisonSort/sampleSort/sequence.h:80-92 | All blocks but the last have exactly the block size, and the last has no more. |
| Sequence.ScanSerial | Code/Profiling/PBBScomparisonSort/sampleSort/sequence.h:164-185 | Cell i holds the fold of the input before it in scan direction, inclusive or exclusive, also when it overwrites its own input. |
| Sequence.ScannedSteps | Code/Profiling/PBBScomparisonSort/sampleSort/sequence.h:164-185 | What scans leave is determined step by step: the first exclusive cell is zero, an inclusive cell combines the exclusive one with the element, and the next exclusive cell repeats it. |
| Sequence.ScannedTotal | Code/Profiling/PBBScomparisonSort/sampleSort/sequence.h:164-185 | The last inclusive cell is the total that scans and reductions return. |
| Sequence.ForwardAgrees | Code/Profiling/PBBScomparisonSort/sampleSort/sequence.h:193-206 | For every associative operation the blocked forward scan equals the serial one in every cell. |
| Sequence.BackwardAgrees | Code/Profiling/PBBScomparisonSort/sampleSort/sequence.h:193-206 | For an associative and commutative operation the blocked reverse scan equals the serial one in every cell. |
| BackScan.BackScanExact | Code/Profiling/PBBScomparisonSort/sampleSort/sequence.h:193-223 | For an associative operation with a unit, and any block size, the reverse scan is right on all inputs if and only if the operation is commutative. |
| BackScan.TextsFail | Code/Profiling/PBBScomparisonSort/sampleSort/sequence.h:193-223 | Joining texts is associative with a unit, and its blocked reverse scan is wrong. |
| MaxIndex.MaxIndexSerial | Code/Profiling/PBBScomparisonSort/sampleSort/sequence.h:131-140 | Answers with the first best cell of its range, but with 0 when that is the first cell, wherever the range starts. |
| MaxIndex.MaxIndex | Code/Profiling/PBBScomparisonSort/sampleSort/sequence.h:142-161 | With more than two blocks the result is a maximum if and only if some maximum lies in the first block or in a block whose first cell is no maximum, and then it is the first such one; with at most two it is the first maximum. |
| MaxIndex.MaximumMissed | Code/Profiling/PBBScomparisonSort/sampleSort/sequence.h:142-161 | With a single maximum at the start of the second of three blocks the search misses it. |
| Sequence.FoldBlocks | Code/Profiling/PBBScomparisonSort/sampleSort/sequence.h:196-203 | Folding the block reductions from zero is folding the cells. |
| Sequence.Reduce | Code/Profiling/PBBScomparisonSort/sampleSort/sequence.h:101-111 | The recursive blocked reduction equals the serial one. |
| Sequence.Pack | Code/Profiling/PBBScomparisonSort/sampleSort/sequence.h:267-278 | Blocked packing, blocks in any order, returns the number of flags, writes each flagged value behind as many cells as flags precede it, and nothing beyond. |
| Sequence.FilteredAt | Code/Profiling/PBBScomparisonSort/sampleSort/sequence.h:263-264 | A flagged value stands behind as many others as there are flags before it. |
| Sequence.CountTrueIs | Code/Profiling/PBBScomparisonSort/sampleSort/sequence.h:241-254 | Counting flag by flag gives the size of the set of flagged places. |
| Sequence.Gathered | Code/Profiling/PBBScomparisonSort/sampleSort/sequence.h:272-275 | The packed blocks are adjacent and put together are the filtered range. |
| Sequence.SumFlagsSerial | Code/Profiling/PBBScomparisonSort/sampleSort/sequence.h:241-254 | Equals the plain count of flags on every path. |
| Sequence.SumGroup | Code/Profiling/PBBScomparisonSort/sampleSort/sequence.h:247-250 | The 32-bit sum of 128 words, wrap-around included, counts the flags, since no byte lane passes 128. |
| ThreeWay.QuickSort | Code/Profiling/PBBScomparisonSort/sampleSort/quickSort.h:65-89 | The base sort sorts and terminates; its two calls get disjoint, strictly shorter ranges. |
| ThreeWay.Partition | Code/Profiling/PBBScomparisonSort/sampleSort/quickSort.h:70-84 | Less, equal and not-less parts around the pivot, both outer parts shorter than the range. |
| ThreeWay.MedianOf | Code/Profiling/PBBScomparisonSort/sampleSort/quickSort.h:57-60 | The median is one of the three, two of them do not exceed it and two are not less. |
| ThreeWay.ChooseMedian | Code/Profiling/PBBScomparisonSort/sampleSort/quickSort.h:70-72 | The pivot is the median of the cells at one, two and three quarters of the range. |
| ThreeWay.InsertionSort | Code/Profiling/PBBScomparisonSort/sampleSort/quickSort.h:29-36 | Sorts the range as a permutation. |
| Classifier.Classifier.Build | Code/Profiling/ips4o/ips4o/classifier.hpp:86-93 | Builds the search tree of all splitters, the last one stored twice, and leaves the splitters alone. |
| Classifier.Classifier.BuildNode | Code/Profiling/ips4o/ips4o/classifier.hpp:185-193 | Writes exactly the cells of its subtree, each with its middle splitter. |
| Classifier.Classifier.Classify | Code/Profiling/ips4o/ips4o/classifier.hpp:98-111 | The branch-free descent returns the bucket given by counting the splitters below the value. |
| Classifier.Classifier.ClassifyUnrolled | Code/Profiling/ips4o/ips4o/classifier.hpp:134-167 | Yields every element once, in order, with the bucket Classify gives, for every group size. |
| Classifier.BucketMonotone | Code/Profiling/ips4o/ips4o/classifier.hpp:98-111 | A value that is not greater gets no later bucket. |
| Classifier.BucketBounds | Code/Profiling/ips4o/ips4o/classifier.hpp:98-111 | The splitters less than a value are exactly those in front of its bucket, or of its pair of equal buckets. |
| Classifier.OddBucket | Code/Profiling/ips4o/ips4o/classifier.hpp:108-110 | With equal buckets the bucket is odd exactly if the value equals a splitter or exceeds all of them. |

## Left out

- BlockPermutation.EveryInterleaving: takes the layout left by local classification and empty-block movement as given, because those phases and the cleanup of margins and buffers are not part of this model; steps are sequentially consistent, so weak memory orders do not appear, and the two pointers of a bucket are separate numbers (`PackedPointers` treats the packed word by itself).
- BlockMachine.BucketPointers.DecRead: pointers are counted in whole blocks and are unbounded; that a packed word realises them holds while both fit in half a word (`PackedPointers.PackedWord`). The non-atomic mode of the same methods is left out.
- ChunkMachine.ParallelPartition: the chunk size is any positive number rather than the tuned one, and a thread's test of two shared variables inside one critical section is one step.
- TreeThreads.ParallelPartition: a step is one access to the tree, one turn of a local partition or one exchange of a pair; finer interleavings inside a step touch cells of one thread only (`TreePartition.CellsApart`).
- ArrayTree.Tree.AdvanceR: counts are unbounded integers, so 32-bit overflow for more than 2^32 elements is not modelled.
- TreeThreads.StridedTurn, PdqSort.HeapSort and the partial sort in `StackSort.SortCurrent` are small stand-ins for `std::partition`, `make_heap` with `sort_heap`, and `std::partial_sort`; the last is called without the comparison in quicksort.h:157, so the comparison is taken to be the element order there.
- PdqBranchless.FillLeft: the eightfold unrolled scans, and the fourfold ones of the hole partition, are loops over single positions; offsets are not limited to one byte.
- HolePartition.BlockPartition: requires a cell before the range, as all callers provide, because partition.h:468 reads and rewrites it.
- Sequence.Scan: `pack2` and `filter` apply the same packing twice or after a map. `MaxIndex.MaxIndex` starts at index 0, as the public entry point does.
- SampleSort.SampleSort: the rounded square root and the hash are arbitrary functions (`SquareRootFits` covers the exact root); parallel loops and spawned calls run one after another on ranges proved disjoint.
- GlibcSort.QuickSort: comparison and swap act on elements; only the final rotation is modelled on bytes.
- Moves are copies: a pivot held outside the array leaves its old value in its cell.
- Other partition variants (the blocked and tree-less ones in parallel_partition.h, `hoare_block_partition_simple`, the dual-pivot drivers), other pivot choices, `shellSort` and sorting networks: they add only easier members or repeat the same ideas.
- Profiling counters, input generators, timers and file I/O.
