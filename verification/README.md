# Verified model of the soft core's runtime and benchmark kernels

A Dafny model of the bare-metal code that runs on, and boots, a RISC-V soft core, with proofs of what that
code is for. `dafny verify dfyconfig.toml` checks all of it.

| files | code modelled |
|---|---|
| `Ring`, `Arena`, `ArenaRuns`, `ArenaTheorems`, `Allocator` | the heap allocator of the C library |
| `ListMerge`, `ListRuns`, `ListSort`, `ListBench` | the linked-list benchmark of CoreMark |
| `QuickSort`, `RadixSort`, `CombSort` | the two sorting benchmarks and the C library's `qsort` |
| `Barrier` | the sense-reversing barrier of the multi-threaded benchmarks |
| `RingBuffer`, `RingReader`, `Uart`, `UartDelivery`, `UartReceipt` | the lock-free byte ring and the interrupt-driven UART engine on it |
| `Numbers` | integer printing (`printf`) and parsing (`strtoumax`) |
| `Regex` | the backtracking matcher of the Scheme kernel |
| `Crc` | the CRC-32 of the debug program |
| `Bootloader` | the boot ROM's command loop and the loading client |
| `Common` | facts of arithmetic and sequences that several of these use |

How the pieces are built:

- The allocator and the list benchmark are classes whose fields are memory: one map per C struct field, indexed
  by address, so that aliasing is what it is in C. The allocator refines a state machine over values (`Arena`);
  whole-run theorems are proved there and carry over because every method's new abstract state is a function of
  the old one.
- The three sorts work in place on arrays; loop bodies follow the source's pointer arithmetic with indices.
- The barrier, the ring and the UART engine are step relations: one step is one access to shared memory, and the
  theorems quantify over every schedule. An interrupt handler is one step, since it runs to completion.
- The bootloader's server is a class with the command loop as a method over a byte stream; the client is a method
  that talks to it over a line that may change one payload or checksum byte of each request.

Where code and comments disagree, the model follows the code:

- `boot.c` declares a 16-byte buffer (line 45) and reads 17 bytes into it (line 65); the model has room for 17.
- In wait mode `consprod_consume` and `consprod_produce` return only the length of the last recursive chunk
  (`consprod.c` lines 44 and 75); the model speaks of bytes moved, never of that value.
- `core_list_find` is documented to search by index "if not 0"; the code tests for an index not negative.
- `rsort.c` ends with a copy that would go the wrong way (line 98); it is proved unreachable.
- `qsort_main.c` says its stack needs at least 2 lg n slots. That is proved to be enough, and the exact need too:
  an array of n equal elements uses 2 * Depth(n) entries and no array uses more. Slot 0 is never used, so the fixed
  50 slots hold 24 ranges, which is enough for every array of n elements if and only if n < 12 * 2^24 - 1; the
  first length that fails is 12 * 2^24 - 1, with all elements equal.
- The loading client takes any read of fewer than 16 bytes for the end of the file
  (`bootloader_uart_client.c` line 118), so after a short read it jumps into an image cut off there. `CutWhole`
  states exactly when the whole file is loaded.

## Model

| member | source | states |
|---|---|---|
| `Ring.InsertLinked` | sw/sys-libs/libc/malloc.c:202-205 | the four stores of an insertion into a circular doubly linked list yield the well-formed list with the node at that place |
| `Ring.RemoveLinked` | sw/sys-libs/libc/malloc.c:39-59 | the two stores of a removal yield the well-formed list without the node |
| `Ring.ReplaceLinked` | sw/sys-libs/libc/malloc.c:92-96 | the stores that put the split-off block in its predecessor's place on the free chain keep the list well formed |
| `Arena.FirstFit` | sw/sys-libs/libc/malloc.c:159-166 | the first block on the free chain that is large enough, and no earlier one is |
| `Arena.AllocKeepsInv` | sw/sys-libs/libc/malloc.c:67-103 | taking from a free block, split or whole, keeps blocks disjoint, no two free neighbours, free chain exactly the free blocks |
| `Arena.ReleaseKeepsInv` | sw/sys-libs/libc/malloc.c:105-143 | freeing with both merges restores the whole invariant, including that no two contiguous blocks are free |
| `Arena.InsertKeepsInv` | sw/sys-libs/libc/malloc.c:181-205 | a new disjoint arena enters as a block without breaking the invariant |
| `ArenaRuns.AllocEffect` | sw/sys-libs/libc/malloc.c:67-103 | an allocation manages the same bytes, hands out a block that was free, large enough and not 32 bytes too large, and touches no other used block |
| `ArenaRuns.ReleaseEffect` | sw/sys-libs/libc/malloc.c:105-143 | a release manages the same bytes and changes no other used block |
| `ArenaRuns.AddEffect` | sw/sys-libs/libc/malloc.c:173-211 | adding an arena adds exactly its bytes and changes no used block |
| `ArenaRuns.StepKeepsInv` | sw/sys-libs/libc/malloc.c:145-233 | every valid call keeps the invariant, the byte count and per live pointer one used block, at least as large as the rounded request and less than 32 bytes larger |
| `ArenaRuns.StepsAre` | sw/sys-libs/libc/malloc.c:145-233 | what each call does to the heap, the live pointers and the bytes added |
| `ArenaRuns.RunKeepsInv` | sw/sys-libs/libc/malloc.c:145-233 | so does every valid sequence of calls |
| `ArenaTheorems.FreeRunInOneBlock` | sw/sys-libs/libc/malloc.c:105-143 | because freeing merges at once, any run of free bytes lies in one free block |
| `ArenaTheorems.MallocNullIff` | sw/sys-libs/libc/malloc.c:145-170 | malloc(n > 0) returns NULL if and only if no contiguous free run anywhere is as long as the rounded request |
| `ArenaTheorems.PayloadsApart` | sw/sys-libs/libc/malloc.c:67-103 | in every reachable state live payloads are apart from each other, from every header and from free memory |
| `ArenaTheorems.MallocFresh` | sw/sys-libs/libc/malloc.c:145-170 | a non-null result is a new pointer; all other allocations stay, the managed bytes too |
| `ArenaTheorems.MallocFirstFit` | sw/sys-libs/libc/malloc.c:145-170 | malloc takes the first block of the free chain that is large enough and hands out at least the rounded request and less than 32 bytes more; no lock or no bytes asked for changes nothing |
| `ArenaTheorems.MallocsAdjacent` | sw/sys-libs/libc/malloc.c:76-96 | what is split off takes the place of the whole on the free chain: two equal requests from one block lie side by side |
| `ArenaTheorems.LastFreedFirst` | sw/sys-libs/libc/malloc.c:121-129 | a block freed between blocks in use is the first to be handed out again |
| `ArenaTheorems.FreeChainAfterFree` | sw/sys-libs/libc/malloc.c:105-143 | the exact free chain after a release, for each of the four cases of merging |
| `Arena.RoundWraps` | sw/sys-libs/libc/malloc.c:152-153 | the rounding done in 32 bits exceeds request plus header if and only if the request is not within 31 bytes of 2^32 |
| `Arena.SplitTestWraps` | sw/sys-libs/libc/malloc.c:76-76 | the 32-bit test for splitting is the intended one if and only if the rounded size is not within 32 bytes of 2^32 |
| `ArenaTheorems.RunInSpace` | sw/sys-libs/libc/malloc.c:145-233 | in every run every block ends inside the 32-bit address space |
| `ArenaTheorems.RunAligned` | sw/sys-libs/libc/malloc.c:152-153 | if every arena added is 16-aligned, so is every live pointer of every run |
| `ArenaTheorems.AllFreeMaximal` | sw/sys-libs/libc/malloc.c:105-143 | with nothing in use there is one block per maximal region |
| `ArenaTheorems.AllFreeUnique` | sw/sys-libs/libc/malloc.c:105-143 | the all-free heap is determined by the bytes managed |
| `ArenaTheorems.FreeAllAnyOrder` | sw/sys-libs/libc/malloc.c:213-233 | freeing all live pointers in any order is valid and leaves one free block per maximal contiguous region |
| `ArenaTheorems.FreeOrderIrrelevant` | sw/sys-libs/libc/malloc.c:213-233 | two orders of freeing everything end in the same blocks |
| `ArenaTheorems.StatusConserves` | sw/sys-libs/libc/malloc.c:244-249 | the free-chain sum is the total of all free blocks, and with the used ones it is every byte ever added |
| `ArenaTheorems.LargestDecides` | sw/sys-libs/libc/malloc.c:235-252 | a request succeeds if and only if its rounded size is at most the reported largest block |
| `Allocator.UserWritesHarmless` | sw/sys-libs/libc/malloc.h:16-42 | a client that writes its payload over the free-chain pointers of a used block disturbs nothing |
| `Allocator.Neighbours` | sw/sys-libs/libc/malloc.c:109-134 | blocks that touch are neighbours on the address-sorted chain, so looking at prev and next suffices to merge |
| `Allocator.Malloc.constructor` | sw/sys-libs/libc/malloc.c:12-24 | the static head node is a valid empty heap |
| `Allocator.Malloc.RemoveFromMainChain` | sw/sys-libs/libc/malloc.c:39-49 | exactly the two link fields change |
| `Allocator.Malloc.RemoveFromFreeChain` | sw/sys-libs/libc/malloc.c:51-59 | exactly the two link fields change |
| `Allocator.Malloc.MallocFromBlock` | sw/sys-libs/libc/malloc.c:67-103 | memory represents the heap with the block split or taken whole; returns the payload address |
| `Allocator.Malloc.SplitBlock` | sw/sys-libs/libc/malloc.c:76-96 | the splitting stores represent the split heap, both chains well formed |
| `Allocator.Malloc.SplitStores` | sw/sys-libs/libc/malloc.c:78-96 | the stores in source order have the combined effect SplitRep is about |
| `Allocator.Malloc.FreeBlock` | sw/sys-libs/libc/malloc.c:105-143 | memory represents the heap after the release; returns the free block that holds the freed one |
| `Allocator.Malloc.ReleaseIntoPrev` | sw/sys-libs/libc/malloc.c:109-129 | merges with a free block that ends here if there is one, else puts the block at the front of the free chain |
| `Allocator.Malloc.MergeWithNext` | sw/sys-libs/libc/malloc.c:131-139 | merges with a free block that starts where this one ends, if any |
| `Allocator.Malloc.Allocate` | sw/sys-libs/libc/malloc.c:145-170 | the pointer program does what the abstract malloc does, NULL cases and refused lock included |
| `Allocator.Malloc.AddBlock` | sw/sys-libs/libc/malloc.c:173-211 | the backward search finds the sorted place; too small or refused arenas leave the heap alone |
| `Allocator.Malloc.FindPredecessor` | sw/sys-libs/libc/malloc.c:194-198 | the backward search stops at the last block below the address, or at the head |
| `Allocator.Malloc.Deallocate` | sw/sys-libs/libc/malloc.c:213-233 | refines the abstract free; NULL and a refused lock change nothing |
| `Allocator.Malloc.MemoryStatus` | sw/sys-libs/libc/malloc.c:235-252 | reports the free-chain sum and the true size of the largest free block |
| `Allocator.Call` | sw/sys-libs/libc/malloc.c:145-233 | any valid call on the pointers is one step of the client's world, and returns what that step says |
| `Allocator.Execute` | sw/sys-libs/libc/malloc.c:145-233 | a whole valid run on the pointers ends in the heap, and returns the pointers, of the run over values, so every theorem about runs holds of memory |
| `Allocator.ReturnedAt` | sw/sys-libs/libc/malloc.c:145-170 | the i-th value returned in a run is that of malloc in the heap the calls before it left |
| `ListSort.Lists.CalcFunc` | sw/kernels/coremark/core_list_join.c:62-94 | a cached item is left alone; an uncached one is computed once, by core_bench_state with a step of at least 0x22 for kind 0, by core_bench_matrix for kind 1 and from the data itself otherwise, cached with its high byte kept, and enters the checksums |
| `ListSort.Lists.CompareComplex` | sw/kernels/coremark/core_list_join.c:100-104 | afterwards both items are cached, no other has changed, and the result is the difference of the cached keys |
| `ListSort.Lists.CompareIdx` | sw/kernels/coremark/core_list_join.c:111-117 | exactly the two items are regenerated from their high bytes and the result is the index difference |
| `ListSort.Lists.Compare` | sw/kernels/coremark/core_list_join.c:462-462 | through the comparator pointer: both nodes are prepared, other data is left alone, and the sign orders them by what is now their key |
| `ListMerge.MergeCompared` | sw/kernels/coremark/core_list_join.c:453-477 | one comparison of the heads fixes every key of the merge |
| `ListMerge.MergeTakeP` | sw/kernels/coremark/core_list_join.c:459-464 | taking from the first run on ties keeps the output in stable order |
| `ListMerge.MergeTakeQ` | sw/kernels/coremark/core_list_join.c:456-467 | taking from the second run only when strictly smaller, or when the first is empty, does too |
| `ListMerge.MergeDone` | sw/kernels/coremark/core_list_join.c:453-477 | the finished merge is an ordered run with all keys fixed |
| `ListRuns.PassTakeP` | sw/kernels/coremark/core_list_join.c:461-476 | relinking the head of the first run keeps memory a linked output plus two intact remainders |
| `ListRuns.PassTakeQ` | sw/kernels/coremark/core_list_join.c:458-476 | the same for the second run |
| `ListRuns.PassDone` | sw/kernels/coremark/core_list_join.c:483-483 | terminating the tail makes the output an acyclic null-terminated list |
| `ListRuns.ReplacePair` | sw/kernels/coremark/core_list_join.c:438-481 | replacing two neighbouring runs by their merge keeps all runs ordered and in the order of the original list |
| `ListSort.Lists.ChooseFirst` | sw/kernels/coremark/core_list_join.c:455-468 | picks the run that must come next and keeps the merge invariant |
| `ListSort.Lists.Append` | sw/kernels/coremark/core_list_join.c:470-476 | hangs the node behind the output without losing either remainder or touching a node outside the list |
| `ListSort.Lists.MergeTwo` | sw/kernels/coremark/core_list_join.c:452-477 | the output grows by an ordered run that is a permutation of both runs; the rest of the list and all nodes and data outside it are untouched |
| `ListSort.Lists.StepAlong` | sw/kernels/coremark/core_list_join.c:440-447 | q ends insize nodes on or at the end of the list, psize says how far |
| `ListSort.Lists.MergePass` | sw/kernels/coremark/core_list_join.c:432-483 | a pass merges runs in pairs, doubles their size, counts its merges, and touches nothing outside the list |
| `ListSort.Lists.MergeSort` | sw/kernels/coremark/core_list_join.c:425-491 | terminates on every non-empty list with an acyclic permutation, stable and sorted by the final keys; no key computed twice; with two or more nodes every node was compared; nodes and data outside the list are unchanged |
| `ListSort.StableOrder` | sw/kernels/coremark/core_list_join.c:462-468 | in order means smaller keys first and equal keys as in the original list |
| `ListBench.Find` | sw/kernels/coremark/core_list_join.c:369-379 | the first node that matches, NULL exactly when none does |
| `ListBench.MatchesIs` | sw/kernels/coremark/core_list_join.c:369-379 | a search is by index for an index not negative, by the low data byte otherwise |
| `ListBench.Reverse` | sw/kernels/coremark/core_list_join.c:394-403 | the list reversed in place, nodes outside it unchanged |
| `ListBench.Splice` | sw/kernels/coremark/core_list_join.c:155-161 | the successor of the node found sits behind the head, the others keep their order, nodes outside are unchanged |
| `ListBench.FindRound` | sw/kernels/coremark/core_list_join.c:143-168 | the exact list after a round of find, reverse and splice, whether the value was found, the bit that is counted, and nodes outside unchanged |
| `ListBench.FindItems` | sw/kernels/coremark/core_list_join.c:141-169 | list, index, data value and count after the find loop are those of the rounds one after another |
| `ListBench.RoundIs` | sw/kernels/coremark/core_list_join.c:147-162 | a miss reverses the list and counts bit 8 of the new second node; a hit also moves the successor behind the head and counts bit 9 of an odd value |
| `ListBench.FindLoopCounts` | sw/kernels/coremark/core_list_join.c:143-168 | after n rounds the data value is the last one, the index n further until it wraps and stays negative, and hits and misses count the rounds |
| `ListBench.SortByValue` | sw/kernels/coremark/core_list_join.c:171-172 | the list is sorted by computed values if the index is positive and left alone otherwise |
| `ListBench.Remove` | sw/kernels/coremark/core_list_join.c:315-326 | the third node is unlinked, points to NULL and carries away the second node's data; nodes outside are unchanged |
| `ListBench.UndoRemove` | sw/kernels/coremark/core_list_join.c:344-354 | the list is linked as before the removal, nodes outside are unchanged |
| `ListBench.InfoRestored` | sw/kernels/coremark/core_list_join.c:315-354 | removal and its undoing together leave every data pointer as it was |
| `ListBench.CrcFrom` | sw/kernels/coremark/core_list_join.c:178-181 | one checksum step per node from the finder on, each over the data of the head |
| `ListBench.CrcList` | sw/kernels/coremark/core_list_join.c:188-193 | one checksum step per node but the first |
| `ListBench.CrcTimesNext` | sw/kernels/coremark/core_list_join.c:178-193 | each step feeds the value and the checksum so far to the next |
| `ListBench.WalkLengthIs` | sw/kernels/coremark/core_list_join.c:174-181 | without a match the walk visits all of the shortened list but its head, otherwise all from the match on |
| `ListBench.RemoveAndUndo` | sw/kernels/coremark/core_list_join.c:173-185 | list, data pointers and nodes outside come back unchanged; the value returned is the checksum walk from the first match on |
| `ListBench.SortedUnique` | sw/kernels/coremark/core_list_join.c:186-187 | a list by strictly increasing index is the only arrangement of its nodes |
| `ListBench.DataRestored` | sw/kernels/coremark/core_list_join.c:111-117 | caching and then regenerating gives back data whose two bytes were equal |
| `ListBench.Restored` | sw/kernels/coremark/core_list_join.c:186-187 | after both sorts node sequence and data are the original ones |
| `ListBench.CoreBenchList` | sw/kernels/coremark/core_list_join.c:131-198 | for every seed the benchmark leaves the identical nodes in the identical order with the identical data pointers and data and nothing outside changed; the value returned is the find count run through both checksum walks |
| `QuickSort.InsertOne` | sw/riscv-tests/benchmarks/qsort/qsort_main.c:48-56 | an element moves down past exactly the greater ones |
| `QuickSort.InsertionSort` | sw/riscv-tests/benchmarks/qsort/qsort_main.c:42-58 | sorts the subarray, rearranges only inside it |
| `QuickSort.MedianOfThree` | sw/riscv-tests/benchmarks/qsort/qsort_main.c:91-94 | least, middle and greatest of the first, the middle and the last element go to the first, second and last place, the second element to the middle, nothing else moves |
| `QuickSort.ScanUp` | sw/riscv-tests/benchmarks/qsort/qsort_main.c:104-104 | the scan without bounds check stops inside the subarray, having passed only smaller elements |
| `QuickSort.ScanDown` | sw/riscv-tests/benchmarks/qsort/qsort_main.c:105-105 | so does the downward scan |
| `QuickSort.ScanAndSwap` | sw/riscv-tests/benchmarks/qsort/qsort_main.c:96-108 | every exchange keeps both sentinels; at the end nothing left of i exceeds the pivot and nothing from j on is below it |
| `QuickSort.Partition` | sw/riscv-tests/benchmarks/qsort/qsort_main.c:89-112 | two parts that may be unordered inside, everything else in final order, a permutation of the range; equal elements split into two equal halves |
| `QuickSort.SplitKeepsOrder` | sw/riscv-tests/benchmarks/qsort/qsort_main.c:74-131 | partitioning one pending range keeps the whole array in order but inside pending ranges |
| `QuickSort.PushKeepsInv` | sw/riscv-tests/benchmarks/qsort/qsort_main.c:115-129 | pushing the larger part and going on with the smaller keeps order, the bound n / 2^depth, and the depth of the array |
| `QuickSort.DoneKeepsInv` | sw/riscv-tests/benchmarks/qsort/qsort_main.c:76-86 | a sorted range is no longer pending; with an empty stack the array is sorted |
| `QuickSort.RoomToPush` | sw/riscv-tests/benchmarks/qsort/qsort_main.c:23-26 | a push takes the stack no deeper than Depth(n) |
| `QuickSort.PushLarger` | sw/riscv-tests/benchmarks/qsort/qsort_main.c:113-129 | the stack holds one range more, the larger; the smaller is current |
| `QuickSort.Pop` | sw/riscv-tests/benchmarks/qsort/qsort_main.c:83-85 | the last range pushed comes back |
| `QuickSort.DepthExceeds` | sw/riscv-tests/benchmarks/qsort/qsort_main.c:115-129 | more than k ranges are stacked exactly from 12 * 2^k - 1 elements on |
| `QuickSort.DepthLog` | sw/riscv-tests/benchmarks/qsort/qsort_main.c:23-24 | the depth is at most log2 n, and below it as soon as anything is stacked, so 2 lg n slots are always enough |
| `QuickSort.FiftySlots` | sw/riscv-tests/benchmarks/qsort/qsort_main.c:26-26 | 50 slots hold the depth of n elements if and only if n < 12 * 2^24 - 1 |
| `QuickSort.FirstFailure` | sw/riscv-tests/benchmarks/qsort/qsort_main.c:26-26 | at 12 * 2^24 - 1 elements the depth needs one slot more than there are, one element less still fits |
| `QuickSort.SortWithin` | sw/riscv-tests/benchmarks/qsort/qsort_main.c:67-132 | with any number of slots: an overflow is reported before any access out of bounds, otherwise the result is a sorted permutation; never more than 2 * Depth(n) entries, and for equal elements exactly so many, so they overflow if and only if the slots do not exceed that |
| `QuickSort.Sort` | sw/riscv-tests/benchmarks/qsort/qsort_main.c:67-132 | with 50 slots: terminates, a sorted permutation of every array of fewer than 12 * 2^24 - 1 elements, at most 2 * floor(log2 n) entries in use; an array of equal elements overruns the stack if and only if it has at least so many |
| `RadixSort.Histogram` | sw/riscv-tests/benchmarks/rsort/rsort.c:43-58 | each bucket counts the elements with its digit, for every length, unrolled or not |
| `RadixSort.PrefixSums` | sw/riscv-tests/benchmarks/rsort/rsort.c:60-66 | each bucket becomes the end of its part of the output |
| `RadixSort.ScatterStep` | sw/riscv-tests/benchmarks/rsort/rsort.c:88-89 | decrementing a bucket and storing there places one element and disturbs no other bucket |
| `RadixSort.ScatterFour` | sw/riscv-tests/benchmarks/rsort/rsort.c:69-87 | four decrements before four stores do the same, even when bucket pointers coincide |
| `RadixSort.Scatter` | sw/riscv-tests/benchmarks/rsort/rsort.c:69-89 | the scratch array becomes the stable sort by the digit |
| `RadixSort.ScatterDone` | sw/riscv-tests/benchmarks/rsort/rsort.c:69-89 | when every element is placed the output is the buckets in a row |
| `RadixSort.OnePass` | sw/riscv-tests/benchmarks/rsort/rsort.c:43-89 | one pass is the stable counting sort by byte k |
| `RadixSort.PassPermutes` | sw/riscv-tests/benchmarks/rsort/rsort.c:43-89 | a pass is a permutation |
| `RadixSort.PassStable` | sw/riscv-tests/benchmarks/rsort/rsort.c:69-89 | elements with the same digit keep their order |
| `RadixSort.GatherLowSorted` | sw/riscv-tests/benchmarks/rsort/rsort.c:41-96 | data in order by k low bytes is in order by k + 1 after the next pass |
| `RadixSort.PassesSort` | sw/riscv-tests/benchmarks/rsort/rsort.c:41-96 | after k passes a permutation in order by its low 8k bits |
| `RadixSort.FourPassesSort` | sw/riscv-tests/benchmarks/rsort/rsort.c:41-96 | four passes sort 32-bit words |
| `RadixSort.Sort` | sw/riscv-tests/benchmarks/rsort/rsort.c:32-99 | a sorted permutation, back in the caller's array; the final memcpy is never reached |
| `CombSort.NewGap` | sw/sys-libs/libc/qsort.c:12-21 | 10/13 of the gap, with 9 and 10 made 11 and 0 made 1; strictly below any gap above 1, even where gap * 10 wraps |
| `CombSort.SwapReduces` | sw/sys-libs/libc/qsort.c:40-43 | exchanging any out-of-order pair, at any distance, strictly reduces the inversions |
| `CombSort.Sweep` | sw/sys-libs/libc/qsort.c:38-44 | every pair a gap apart is compared from the left and exchanged if in the wrong order; a permutation, with fewer inversions if anything was exchanged, else with every pair a gap apart in order |
| `CombSort.SweepCarries` | sw/sys-libs/libc/qsort.c:38-44 | each step of a sweep takes the greater of its pair on to the right |
| `CombSort.AdjacentSorted` | sw/sys-libs/libc/qsort.c:45-45 | a sweep at gap 1 without exchange means sorted |
| `CombSort.Sort` | sw/sys-libs/libc/qsort.c:23-46 | terminates for every array and total preorder, by gap and then inversions, with a sorted permutation, sweeping at the shrinking gaps down to 1 |
| `Barrier.StepKeepsInv` | sw/riscv-tests/benchmarks/common/util.h:44-62 | every single access by any thread keeps the protocol invariant |
| `Barrier.RunKeepsInv` | sw/riscv-tests/benchmarks/common/util.h:44-62 | so does every schedule |
| `Barrier.BarrierSafe` | sw/riscv-tests/benchmarks/common/util.h:44-62 | for any number of threads, schedule and reuse: nobody leaves round k before all entered it, threads are at most one round apart, 0 <= count <= ncores |
| `Barrier.BarrierProgress` | sw/riscv-tests/benchmarks/common/util.h:53-59 | in every reachable state some thread can move |
| `Barrier.RoundCanFinish` | sw/riscv-tests/benchmarks/common/util.h:53-59 | while some thread has not left k rounds, one that has not can move |
| `Barrier.WorkShrinks` | sw/riscv-tests/benchmarks/common/util.h:53-59 | a measure that each such move lowers and no other step raises |
| `Barrier.RoundEnds` | sw/riscv-tests/benchmarks/common/util.h:53-59 | moves by threads that have not left k rounds can take all of them there |
| `Barrier.EnabledPersists` | sw/riscv-tests/benchmarks/common/util.h:53-59 | a thread that can move still can after a step by any other |
| `Barrier.FairRoundEnds` | sw/riscv-tests/benchmarks/common/util.h:44-62 | under every fair schedule: as many segments as there is work, each letting every thread take part, take all threads through k rounds |
| `Barrier.BarrierRuns` | sw/riscv-tests/benchmarks/common/util.h:44-62 | from the start, for any number of threads and rounds, 6 * k * n fair segments see every thread through k rounds |
| `RingBuffer.NextSlot` | sw/sys-libs/drivers/consprod.c:14-21 | the wrapped pointer step is the next logical position modulo the size |
| `RingBuffer.SlotEq` | sw/sys-libs/drivers/consprod.c:14-21 | positions within a lap share a slot only when equal or a whole lap apart |
| `RingBuffer.InitInv` | sw/sys-libs/drivers/consprod.c:4-11 | a fresh ring satisfies the invariant |
| `RingBuffer.FreshSlot` | sw/sys-libs/drivers/consprod.c:62-69 | the slot the producer writes holds no byte still to be read |
| `RingBuffer.ProducerStepKeepsInv` | sw/sys-libs/drivers/consprod.c:54-82 | every access of the producer keeps the invariant |
| `RingBuffer.ConsumerStepKeepsInv` | sw/sys-libs/drivers/consprod.c:24-51 | every access of the consumer keeps it, and a waiting consume is over only with nothing left to read |
| `RingBuffer.RingSafe` | sw/sys-libs/drivers/consprod.c:24-82 | under every interleaving: consumed is a prefix of produced, at most size - 2 bytes buffered, prod never meets cons, no slot written while read, a spin-wait sees a change exactly when the other side has moved, and a waiting call returns only with all its bytes moved |
| `RingBuffer.StepIs` | sw/sys-libs/drivers/consprod.c:24-82 | an idle side takes a call with its bytes, a busy one finishes first, each side moves by its own accesses |
| `RingBuffer.SpinExact` | sw/sys-libs/drivers/consprod.c:42-73 | a waiting side stands still exactly as long as the other has not moved since it looked |
| `RingBuffer.Drain` | sw/sys-libs/drivers/consprod.c:24-51 | a non-waiting consume takes exactly as many bytes as it wants or there are |
| `RingBuffer.Fill` | sw/sys-libs/drivers/consprod.c:54-82 | a non-waiting produce publishes exactly the prefix there is room for |
| `RingReader.ReaderStep` | sw/sys-libs/drivers/consprod.c:24-51 | a step of a waiting reader keeps its goal and, if the bytes are there, does some of its work |
| `RingReader.GoalKept` | sw/sys-libs/drivers/consprod.c:24-51 | whatever happens, a waiting reader is idle again only with exactly the bytes asked for |
| `RingReader.ReaderFinishes` | sw/sys-libs/drivers/consprod.c:24-51 | once enough bytes are published, as many turns as there is work end the call |
| `RingReader.WaitingConsume` | sw/sys-libs/drivers/consprod.c:24-51 | a blocking read of n bytes, under every schedule: it never returns without them, returns once they are published and it gets its turns, and has then read exactly the next n bytes |
| `Uart.StartTxKeepsInv` | sw/sys-libs/drivers/interrupts.c:46-58 | starting a transfer moves min(255, available) bytes from ring to wire |
| `Uart.TxStepKeepsInv` | sw/sys-libs/drivers/interrupts.c:37-59 | writes, accesses, timers and completions in any order keep the transmit invariant |
| `Uart.TransmitSafe` | sw/sys-libs/drivers/interrupts.c:37-81 | the bytes on the wire are always a prefix of those written, and the transmit buffer is never changed while a transfer is in flight |
| `Uart.TimerStartsTransfer` | sw/sys-libs/drivers/interrupts.c:66-73 | an idle engine with bytes in its ring starts a transfer at the next timer |
| `Uart.InterruptStartsTransfer` | sw/sys-libs/drivers/interrupts.c:43-58 | the completion interrupt starts the next transfer of up to 255 bytes at once, or leaves the engine idle |
| `Uart.TimerLeavesTransfer` | sw/sys-libs/drivers/interrupts.c:46-46 | the timer does nothing while a transfer is under way |
| `Uart.WriteAccepted` | sw/sys-libs/drivers/uart0.c:42-46 | a blocking write by an idle main thread hands over all its bytes |
| `UartDelivery.WriterWork` | sw/sys-libs/drivers/consprod.c:54-82 | a step of the waiting writer does some of its work unless it has none or the ring is full |
| `UartDelivery.StepWork` | sw/sys-libs/drivers/interrupts.c:37-59 | no event but a new write adds work, and one that does none changes nothing that matters |
| `UartDelivery.HelperWorks` | sw/sys-libs/drivers/interrupts.c:37-81 | while there is work some event does part of it |
| `UartDelivery.EverythingSent` | sw/sys-libs/drivers/interrupts.c:37-81 | under every fair schedule of timers, completions, interrupts and writer steps every byte written is sent, if the ring has at least three bytes |
| `UartDelivery.TinyRingStuck` | sw/sys-libs/drivers/consprod.c:62-69 | a ring of two bytes never passes anything on |
| `Uart.RxStepKeepsInv` | sw/sys-libs/drivers/interrupts.c:14-35 | bytes, timers, buffer-full interrupts and reads in any order keep the receive invariant |
| `Uart.ReceiveSafe` | sw/sys-libs/drivers/interrupts.c:14-81 | each byte received is offered to the ring exactly once and in order; what is read is a prefix of what the ring took |
| `Uart.OfferStored` | sw/sys-libs/drivers/interrupts.c:19-26 | an offer is stored up to the room there is, only the excess is dropped |
| `Uart.TimerOffers` | sw/sys-libs/drivers/interrupts.c:66-68 | every timer interrupt passes on all that has arrived, as far as the ring has room |
| `Uart.InterruptOffers` | sw/sys-libs/drivers/interrupts.c:77-79 | so does the buffer-full interrupt, after which the buffer is empty and armed again |
| `Uart.ByteStored` | sw/sys-libs/drivers/interrupts.c:14-35 | a byte is stored unless the buffer is full; the interrupt comes with the 255th |
| `UartReceipt.EverythingOffered` | sw/sys-libs/drivers/interrupts.c:14-81 | whatever else happens, a timer interrupt passes on every byte received before it |
| `UartReceipt.NothingDropped` | sw/sys-libs/drivers/interrupts.c:19-26 | while there is room the ring has accepted exactly what was offered |
| `UartReceipt.EverythingRead` | sw/sys-libs/drivers/uart0.c:48-52 | a blocking read under every schedule of bytes, timers, interrupts and turns: never without its bytes, always the next ones received, and over once they were passed on and it has its turns |
| `Uart.BlockingWriteMultiple` | sw/sys-libs/drivers/uart0.c:55-67 | the chunks written, of 255 bytes and a last one of 1 to 255, make up the buffer |
| `Uart.BlockingReadMultiple` | sw/sys-libs/drivers/uart0.c:69-81 | the chunks read, of 255 bytes and a last one of 1 to 255, add up to the length |
| `Numbers.DigitsAgree` | sw/sys-libs/libc/tinyprintf.c:118-118 | the printer's digit characters are the parser's |
| `Numbers.DigitValues` | sw/sys-libs/libc/strntoumax.c:12-23 | the 36 digits, letters of either case, and nothing else |
| `Numbers.FirstWeight` | sw/sys-libs/libc/tinyprintf.c:109-112 | the weight of the leading digit, without overflow of d |
| `Numbers.PrintDigits` | sw/sys-libs/libc/tinyprintf.c:113-121 | the digits printed are the canonical text |
| `Numbers.Ui2a` | sw/sys-libs/libc/tinyprintf.c:106-123 | canonical text for every 32-bit number and base, letters in the case asked for; with terminator it fits 12 bytes in bases from 8 |
| `Numbers.FitsBuffer` | sw/sys-libs/libc/tinyprintf.c:226-226 | any canonical text of a 32-bit number in base 8 or more fits the buffer |
| `Numbers.I2a` | sw/sys-libs/libc/tinyprintf.c:125-132 | sign and magnitude, right for the most negative number too |
| `Numbers.FillCount` | sw/sys-libs/libc/tinyprintf.c:174-185 | the filling counted down in the source is what the field lacks |
| `Numbers.FieldWidth` | sw/sys-libs/libc/tinyprintf.c:170-217 | output length is max(width, content) |
| `Numbers.FieldIs` | sw/sys-libs/libc/tinyprintf.c:187-214 | blanks first without zero filling, the sign, 0x, 0X or 0 in the alternate form, zeros with zero filling, and the digits |
| `Numbers.PutChW` | sw/sys-libs/libc/tinyprintf.c:170-217 | emits blanks, sign, prefix, zeros and digits in order and counts them |
| `Numbers.SkipSpaces` | sw/sys-libs/libc/strntoumax.c:31-34 | skips blanks and stops at the first character that is none |
| `Numbers.SpacesAre` | sw/sys-libs/libc/strntoumax.c:31-31 | the six blanks of the C locale |
| `Numbers.DigitRun` | sw/sys-libs/libc/strntoumax.c:67-71 | the digits up to the first character that is no digit of the base |
| `Numbers.ParseRun` | sw/sys-libs/libc/strntoumax.c:67-71 | the longest digit run and its value modulo 2^64 |
| `Numbers.StrNToUMax` | sw/sys-libs/libc/strntoumax.c:25-77 | blanks, sign, prefix and digits as specified, and where it stops |
| `Numbers.ParseIs` | sw/sys-libs/libc/strntoumax.c:25-77 | character by character: blanks, one optional sign, the base that a leading 0x or 0 chooses when none is given, digits modulo 2^64, negated for a minus sign |
| `Numbers.BaseZero` | sw/sys-libs/libc/strntoumax.c:46-58 | base 0 reads hexadecimal after 0x or 0X, octal after another 0, decimal otherwise |
| `Numbers.RoundTrip` | sw/sys-libs/libc/strntoumax.c:25-77 | for every 32-bit value, base 8, 10 or 16, width, filling, sign and prefix the printed field parses back to the value and is read to its end |
| `Numbers.RoundTripZero` | sw/sys-libs/libc/strntoumax.c:46-58 | hexadecimal and octal in the alternate form, and decimal without zero filling, read back in base 0 |
| `Numbers.SignedRoundTrip` | sw/sys-libs/libc/tinyprintf.c:125-132 | a signed int comes back modulo 2^32 |
| `Regex.AcceptsCons` | sw/kernels/scheme/regex.c:6-30 | a pattern fits if and only if its first token takes some beginning and the others the rest |
| `Regex.AcceptsOne` | sw/kernels/scheme/regex.c:15-16 | a single character or '.' takes exactly one |
| `Regex.AcceptsEnd` | sw/kernels/scheme/regex.c:13-14 | a final '$' fits exactly the empty rest |
| `Regex.AcceptsStar` | sw/kernels/scheme/regex.c:21-30 | a starred character takes any number of characters that are it, any at all for a dot |
| `Regex.TokensAre` | sw/kernels/scheme/regex.c:9-16 | how patterns are read: starred characters, a final dollar, and characters that stand for themselves |
| `Regex.FoundIs` | sw/kernels/scheme/regex.c:37-43 | a leading ^ pins the pattern to the start, otherwise the text is searched |
| `Regex.MatchHere` | sw/kernels/scheme/regex.c:6-18 | terminates; true if and only if a beginning of the text has a reading as the pattern |
| `Regex.MatchStar` | sw/kernels/scheme/regex.c:21-30 | true if and only if some number of fitting characters is followed by a reading of the rest |
| `Regex.Match` | sw/kernels/scheme/regex.c:33-44 | true if and only if the pattern is found somewhere, at the start under '^' |
| `Crc.ReverseInvolution` | sw/riscv-tests/debug/programs/checksum.c:5-13 | reversing twice is the identity |
| `Crc.ReverseShift` | sw/riscv-tests/debug/programs/checksum.c:5-13 | reversal turns a right shift into a left shift |
| `Crc.StepsMirror` | sw/riscv-tests/debug/programs/checksum.c:30-32 | a step of the left-shifting register is the mirror image of one of the reflected register |
| `Crc.ShiftsXor` | sw/riscv-tests/debug/programs/checksum.c:29-34 | k division steps are linear |
| `Crc.EightSteps` | sw/riscv-tests/debug/programs/checksum.c:29-34 | eight steps over a byte are one table look-up of RFC 1952 |
| `Crc.ByteRounds` | sw/riscv-tests/debug/programs/checksum.c:27-34 | the inner loop computes the mirror image of that look-up |
| `Crc.Crc32a` | sw/riscv-tests/debug/programs/checksum.c:20-38 | for every message the CRC of section 8 of RFC 1952 |
| `Crc.CheckValues` | sw/riscv-tests/debug/programs/checksum.c:20-38 | the reference has the published values for the empty message and for "a" |
| `Bootloader.CorruptionDetected` | cpu/BOOTCODE/boot.c:13-39 | a frame with exactly one byte changed, payload or checksum, fails its check |
| `Bootloader.AddressRoundTrip` | cpu/BOOTCODE/boot.c:22-39 | the server decodes the client's address bytes to the address, reduced to 32 bits |
| `Bootloader.ComputeChecksum` | cpu/BOOTCODE/boot.c:13-20 | the exclusive or of the sixteen bytes |
| `Bootloader.ConvertFive` | cpu/BOOTCODE/boot.c:22-39 | the little-endian number if and only if the fifth byte is the checksum |
| `Bootloader.PeekStore` | cpu/BOOTCODE/boot.c:67-67 | a block store changes exactly the bytes it covers, around the end of the address space too |
| `Bootloader.Target.constructor` | cpu/BOOTCODE/boot.c:11-11 | the pointer starts at 0x10000 |
| `Bootloader.Target.SetPointer` | cpu/BOOTCODE/boot.c:54-63 | an intact address frame sets the pointer, any other is refused without effect |
| `Bootloader.Target.WriteChunk` | cpu/BOOTCODE/boot.c:64-75 | an intact frame is stored and the pointer advances by 16, any other is refused without effect |
| `Bootloader.Target.ReadChunk` | cpu/BOOTCODE/boot.c:76-81 | replies sixteen bytes with their checksum and advances |
| `Bootloader.Target.Command` | cpu/BOOTCODE/boot.c:53-98 | dispatch on the command byte, unknown ones refused |
| `Bootloader.CommandsAre` | cpu/BOOTCODE/boot.c:53-98 | the commands and replies by their characters |
| `Bootloader.Target.Serve` | cpu/BOOTCODE/boot.c:51-99 | the loop over arriving bytes: replies, state and unread rest are those of the stream semantics |
| `Bootloader.RunResumes` | cpu/BOOTCODE/boot.c:51-99 | how the stream is cut into arrivals does not matter |
| `Bootloader.SetFrameObeyed` | tools/bootloader_uart_client.c:40-52 | an address request sets the pointer, or when struck by one wrong byte is refused with memory and pointer unchanged |
| `Bootloader.FramesAre` | tools/bootloader_uart_client.c:45-48 | the client's frames byte by byte |
| `Bootloader.WriteFrameObeyed` | tools/bootloader_uart_client.c:75-88 | the same for a data request |
| `Bootloader.WriteReadBack` | cpu/BOOTCODE/boot.c:64-81 | what was written reads back as an intact frame |
| `Bootloader.BufferIsPiece` | tools/bootloader_uart_client.c:111-117 | the zeroed buffer after a short read is the next piece of the padded image |
| `Bootloader.CutWhole` | tools/bootloader_uart_client.c:111-123 | the whole file is read if and only if no read is short or fails before its end |
| `Bootloader.CutIs` | tools/bootloader_uart_client.c:111-123 | reading ends at the first read that fails or gives fewer than 16 bytes, with all before it kept |
| `Bootloader.SendPieces` | tools/bootloader_uart_client.c:111-123 | the load loop sends the pieces of what it reads, in order, until the first short read, and stops at a read error or an unacknowledged request |
| `Bootloader.RequestObeyed` | tools/bootloader_uart_client.c:109-128 | the k-th request takes the session one step on if it arrives clean, and changes nothing otherwise |
| `Bootloader.ScriptLoads` | tools/bootloader_uart_client.c:109-128 | all requests sent without waiting are obeyed and acknowledged one by one |
| `Bootloader.ImageLoaded` | tools/bootloader_uart_client.c:109-128 | at the end memory from the load address holds the zero-padded image, every other byte is unchanged, and the target is the jump address |
| `Bootloader.LoadAndJump` | tools/bootloader_uart_client.c:109-128 | client and server together: the jump is reached if and only if the file is read without error and every request arrived clean and was acknowledged, and then what was read is loaded; otherwise the session stops there with the pieces acknowledged so far |

## Left out

- Allocator.Malloc.Allocate: requests within 31 bytes of 2^32 are excluded, because the rounding in malloc.c wraps there and hands out too little (Arena.RoundWraps says exactly when). Addresses and sums are otherwise unbounded; Arena.SplitTestWraps says when the sum of line 76 would wrap, which takes a single free block within 32 bytes of 2^32.
- Allocator.Malloc.Deallocate: only live pointers are freed; the code gives no guarantee for others. The `DEBUG_MALLOC` marks and assertion are off.
- The lock functions of the allocator are a parameter that says whether the lock was granted; `set_malloc_locking`, `realloc` and `calloc` are not modelled.
- ListBench.CoreBenchList: `core_bench_state`, `core_bench_matrix` and the checksums are function values that do not touch the list; `core_list_init` is not modelled, its result is the precondition. The data value searched for when no finds are asked for, uninitialised in C, is the parameter `stale`.
- ListSort.Lists.MergeSort: run lengths are unbounded, where the source's are 32-bit; no list fits in memory that would overflow them.
- QuickSort.SortWithin: what happens after a write past the stack is not modelled; the run ends there as an overflow. `selection_sort` is never called and is left out.
- RadixSort.Sort: the address `&arr[n-3]` is taken as the integer n - 3, also for fewer than three elements, where C gives it no meaning.
- CombSort.Sort: elements are values rather than `size` bytes each; the comparison function has no side effects.
- Barrier: memory is sequentially consistent; the fences around the barrier are what justifies that.
- RingBuffer: a compiler or processor that reorders the data access and the pointer update is not modelled.
- Uart: `uart0_stop_engine`, cache flushes, register encodings and the timer period; flushed memory is taken to be coherent. A byte that arrives while the receive buffer is full is lost and counts as neither received nor offered.
- Numbers: the format-string interpreter, `long` arguments and failing output; a character set in which digits and letters are not contiguous.
- Bootloader.LoadAndJump: the line may change payload and checksum bytes of requests, one each; command bytes and replies arrive as sent, because nothing in the protocol protects them.
- Bluetooth tools, GPIO and JTAG scripts, matrix and vector benchmarks, Dhrystone, `vsscanf`, and the one-loop string functions: they depend on code that is not part of this model, or would only add easy members.
