# Proofs about the C and assembly labs

This project models the parts of the repository whose correctness is hardest to see and proves what they promise, for
every input, every answer of the operating system and every sequence of calls.

- **The lab-4 heap allocator** (`BlockList.dfy`, `HeapSteps.dfy`, `HeapRuns.dfy`, `BlockHeap.dfy`). `BlockHeap` is the
  code: headers in a map from address to header, rewritten in place by the source's own steps. Each method equals a
  function on the list of blocks in list order (`HeapSteps`), and about these functions `BlockList` and `HeapRuns` prove
  that the walk with its merges is first fit over maximal free runs, that the blocks always tile the mapped memory, and
  that the heap refines a map from live payload address to capacity. `mmap` is an oracle: it fails, or it gives a fresh
  page-aligned range. Sizes are taken modulo 2^64.
- **Kernels of the ptmalloc reference kept with lab 4.** `BinIndexing` and `BinScan`: bin numbers and the binmap-guided
  best-fit scan. `ChunkRing` and `LargeBin`: sorted large bins with the `fd_nextsize` skip ring. `BestFit`: both searches
  together. `BoundaryTags`: the size words and footers under freeing, reuse, consolidation and splitting.
- **The store-buffering program of sem-8** (`StoreBuffers.dfy`), as an x86-TSO system with one store FIFO per thread.
- **The programs of sem-6**: the ring macro as a deque (`Ring.dfy`), the segment heap over a status array of any length
  (`Segments.dfy`), the expression printer and the tokenizer (`Tokens.dfy`).
- **The image transformer of lab 3** (`Pictures.dfy`, `Bitmap.dfy`) and **the decimal conversions of lab 2**
  (`Decimal.dfy`).

`dafny verify dfyconfig.toml` checks everything.

## Where the code differs from what is said about it

- `heap-1.c:41` compares the index after the range with the number of blocks, so a segment of several blocks that ends at
  the last block is never freed. `Segments.FreesIff` and `Segments.FreeUndoesAllocate` give the exact condition,
  `Segments.WholeHeapStays` the simplest case: a fresh heap allocated whole.
- `bmp.c:95` writes the padding as one item of `padding` bytes. For a padding of zero bytes `fwrite` returns 0 (section
  7.21.8.2 of ISO C11), so `to_bmp` reports `WRITE_ERROR` for every image with rows whose width is a multiple of 4.
  `Bitmap.ToBmp` and `Bitmap.WriteThenRead` give both directions, `Bitmap.FourByOne` one input;
  `Bitmap.ReadableIff` says which of the files left behind can still be read. The format itself is not at fault:
  `Bitmap.RoundTrip` holds for every width.
- `parse_int` is described as returning length 0 when there is no number. For a minus that no digit follows it returns
  length 1; `Decimal.NoNumberLengthZero` shows that these are the only exceptions, `Decimal.LoneMinus` gives one.
- `print_ast` writes the literal INT64_MIN as a minus and a magnitude that `strtoll` caps, so its tokens come back wrong,
  and a null child prints as text that `tokenize` rejects. `Tokens.TokenizeOfPrint` proves that there is no other
  exception, and `Tokens.MinimumIsMisread` gives the tokens that come back. The text itself stays unambiguous:
  `Tokens.PrintIsInjective` has no exception.
- `mem.c:224` starts every walk at `HEAP_START`, wherever `heap_init` got its region. `HeapRuns.InitCorrect` and
  `BlockHeap.Allocator.HeapInit`: the other calls can work exactly when the region is at `HEAP_START`; otherwise there is
  no header at that address, and it is mapped only by chance.
- When a request rounded up to pages overflows `size_t`, `grow_heap` maps a region too small for it and `_malloc` returns
  NULL. `HeapRuns.MallocCorrect` includes that case.

## Model

| member | source | states |
|---|---|---|
| BlockList.MergeAtIsRun | lab-4/assignment-4-memory-allocator/src/mem.c:112-133 | the loop of `try_merge_with_next` replaces exactly the maximal run of free adjacent neighbours at a block by one block that spans it, leaves everything before and behind untouched, and stops with nothing mergeable |
| BlockList.MergeAtGround | lab-4/assignment-4-memory-allocator/src/mem.c:124-133 | merging keeps the bytes occupied, the sum of headers and capacities, both ends of the list and every block in use |
| BlockList.SearchIsFirstFit | lab-4/assignment-4-memory-allocator/src/mem.c:144-165 | although it merges while walking, the search returns the first maximal free run whose merged capacity fits, with what lies behind it unchanged; it reaches the end exactly when no run fits, and then stands on the block with the list's old end |
| BlockList.SearchCoalesces | lab-4/assignment-4-memory-allocator/src/mem.c:144-165 | no two mergeable neighbours are left from the start of the search to where it stops |
| BlockList.SearchKeepsFront | lab-4/assignment-4-memory-allocator/src/mem.c:144-165 | nothing in front of the starting block changes, nor that block's address and status |
| BlockList.SearchGround | lab-4/assignment-4-memory-allocator/src/mem.c:144-165 | the search keeps the occupied bytes, their sum, both ends and the blocks in use |
| HeapSteps.RoundPagesIsLeast | lab-4/assignment-4-memory-allocator/src/mem.c:25-29 | `round_pages` is the least page multiple that is no smaller than its argument |
| HeapSteps.RegionSizeMeaning | lab-4/assignment-4-memory-allocator/src/mem.c:40-53 | a region is whole pages and at least 8192 bytes: the larger of 8192 and the rounded payload with header, except that it is just 8192 when the rounding overflows |
| HeapRuns.SplitGround | lab-4/assignment-4-memory-allocator/src/mem.c:81-103 | splitting keeps the occupied bytes, their sum and both ends of the list |
| HeapRuns.SplitCapacity | lab-4/assignment-4-memory-allocator/src/mem.c:81-103 | after the split a free block exceeds the request by at most 40 bytes, at its old address |
| HeapRuns.ExistingKeeps | lab-4/assignment-4-memory-allocator/src/mem.c:169-178 | `try_memalloc_existing` keeps the heap invariant; a found block is new among those in use, of capacity q to q + 40, and no other block in use appears or disappears |
| HeapRuns.ExistingServes | lab-4/assignment-4-memory-allocator/src/mem.c:169-178 | the block found keeps its address and gets exactly the requested capacity when at least 41 bytes more are there, and otherwise stays whole |
| HeapRuns.GrowReachable | lab-4/assignment-4-memory-allocator/src/mem.c:180-193 | growing by any fresh region keeps the invariant and the blocks in use, and ends in a free block no smaller than the region's payload |
| HeapRuns.GrowMeans | lab-4/assignment-4-memory-allocator/src/mem.c:180-193 | a region at the end of a free last block makes that block longer by the whole region; any other is appended as one free block of its size less 17 |
| HeapRuns.GrowCoalesces | lab-4/assignment-4-memory-allocator/src/mem.c:144-193 | growth after a failed search leaves no two mergeable neighbours in the whole list |
| HeapRuns.MallocGrows | lab-4/assignment-4-memory-allocator/src/mem.c:207-220 | the retry after growth fails exactly when the request overflowed, and otherwise takes a block of capacity q to q + 40 |
| HeapRuns.MallocCorrect | lab-4/assignment-4-memory-allocator/src/mem.c:196-229 | for a request of n bytes and q the larger of n and 24: NULL exactly when no maximal free run of q bytes exists and both mappings failed or q overflows; otherwise one new live allocation of at least n bytes and of q to q + 40, all others as they were; a region is added exactly when nothing fitted and a mapping succeeded |
| HeapRuns.MallocIsFirstFit | lab-4/assignment-4-memory-allocator/src/mem.c:144-229 | when something fits, the result is 17 bytes behind the front of the first maximal free run that does; the block has exactly the larger of the request and 24, or the whole run when no block could be cut off it |
| HeapRuns.MallocAfterGrowth | lab-4/assignment-4-memory-allocator/src/mem.c:180-229 | when nothing fitted and a region came: the block served is the last free run extended by the region when that run ends where the region begins, and otherwise the region's own; its address and capacity are exact |
| HeapRuns.BytesConserved | lab-4/assignment-4-memory-allocator/src/mem.c:87-229 | the sum of headers and capacities grows by exactly the region size when a region is mapped and not at all otherwise |
| HeapRuns.FreeCorrect | lab-4/assignment-4-memory-allocator/src/mem.c:231-246 | freeing a live payload removes it and nothing else from the live map and keeps the invariant and the regions |
| HeapRuns.FreeMergesRun | lab-4/assignment-4-memory-allocator/src/mem.c:236-246 | the block freed takes in the whole run of free neighbours behind it, all other blocks stay, and nothing mergeable is left behind it |
| HeapRuns.FreeUndoesMalloc | lab-4/assignment-4-memory-allocator/src/mem.c:222-246 | freeing what was just allocated leaves exactly the list that the search, or the growth, had produced |
| HeapRuns.LivePayloadsAreSafe | lab-4/assignment-4-memory-allocator/src/mem.c:107-122 | a live payload overlaps no header and no other live payload and is mapped throughout |
| HeapRuns.HintIsAligned | lab-4/assignment-4-memory-allocator/src/mem.c:180-182 | the address asked of `mmap`, the end of the last block, is a whole number of pages |
| HeapRuns.StepRefines | lab-4/assignment-4-memory-allocator/src/mem.c:196-246 | every legal call is a step of the abstract map: an allocation of a fresh address and suitable size, nothing, or one removal |
| HeapRuns.RunKeeps | lab-4/assignment-4-memory-allocator/src/mem.c:196-246 | over every run the heap invariant holds, and an allocation keeps address and capacity until it is freed |
| HeapRuns.RunsAreSafe | lab-4/assignment-4-memory-allocator/src/mem.c:68-246 | from `heap_init` on, after every run: live payloads are pairwise disjoint, clear of all headers and mapped, and the blocks account for every mapped byte |
| HeapRuns.InitCorrect | lab-4/assignment-4-memory-allocator/src/mem.c:68-75 | the initial heap satisfies the invariant that `_malloc` relies on exactly when its region is at `HEAP_START`; otherwise no block starts there, and the address is mapped only if it lies inside the region |
| BlockHeap.Allocator.constructor | lab-4/assignment-4-memory-allocator/src/mem.c:68-70 | before `heap_init` nothing is mapped |
| BlockHeap.Allocator.HeapInit | lab-4/assignment-4-memory-allocator/src/mem.c:68-75 | one free block over the first region wherever it lies, or NULL and untouched memory when both mappings fail; a header is at `HEAP_START`, and the heap is one the other calls can work on, exactly when the region is there |
| BlockHeap.Allocator.TryMergeWithNext | lab-4/assignment-4-memory-allocator/src/mem.c:119-133 | merges exactly when both blocks are free and adjacent; the list in memory becomes the merged one |
| BlockHeap.Allocator.MergeAll | lab-4/assignment-4-memory-allocator/src/mem.c:149-150 | the loop ends, and leaves the whole run at the block merged |
| BlockHeap.Allocator.FindGoodOrLast | lab-4/assignment-4-memory-allocator/src/mem.c:144-165 | the loop over `next` links ends with the list and the block that first fit gives |
| BlockHeap.Allocator.SplitIfTooBig | lab-4/assignment-4-memory-allocator/src/mem.c:81-103 | splits exactly when the block is splittable; the links then thread the new block in |
| BlockHeap.Allocator.SetStatus | lab-4/assignment-4-memory-allocator/src/mem.c:175 | one block changes status, nothing else |
| BlockHeap.Allocator.TryMemallocExisting | lab-4/assignment-4-memory-allocator/src/mem.c:169-178 | search, split and occupation as on the list of blocks |
| BlockHeap.Allocator.AllocRegion | lab-4/assignment-4-memory-allocator/src/mem.c:51-64 | one header over the whole region, no other header touched, `extends` set exactly when the hint was met; an invalid region and unchanged memory when both mappings fail |
| BlockHeap.Allocator.GrowHeap | lab-4/assignment-4-memory-allocator/src/mem.c:180-193 | the region is linked behind the last block and merged with it when it is adjacent to a free one; without a region nothing changes |
| BlockHeap.Allocator.Malloc | lab-4/assignment-4-memory-allocator/src/mem.c:196-229 | memory and result are those of the abstract call |
| BlockHeap.Allocator.Free | lab-4/assignment-4-memory-allocator/src/mem.c:231-246 | memory is that of the abstract call |
| BlockHeap.Allocator.ClientStores | lab-4/assignment-4-memory-allocator/src/mem.c:222-229 | whatever the owner stores in a live payload, no header of the list is overwritten |
| BinIndexing.BinIndexMonotone | lab-4/assignment-4-memory-allocator/docs/malloc-impl.c:1564-1601 | larger sizes never get a smaller bin number, in all three configurations |
| BinIndexing.BinIndexRange | lab-4/assignment-4-memory-allocator/docs/malloc-impl.c:1555-1601 | every legal size has a bin from 2 to 126, below 64 exactly for small sizes |
| BinIndexing.LargeBinSpacing | lab-4/assignment-4-memory-allocator/docs/malloc-impl.c:1578-1601 | large bins are 64, 512, 4096, 32768 and 262144 bytes apart in turn, and everything from 786432 bytes on is in the last |
| BinIndexing.BinSeams | lab-4/assignment-4-memory-allocator/docs/malloc-impl.c:1555-1601 | the bins on both sides of every change of spacing, in all three configurations |
| BinIndexing.SmallBinHasOneSize | lab-4/assignment-4-memory-allocator/docs/malloc-impl.c:1555-1566 | two aligned sizes in one small bin are equal |
| BinScan.NoneAbove | lab-4/assignment-4-memory-allocator/docs/malloc-impl.c:4218-4220 | when the shifted bit exceeds the word, no bit from there on is set |
| BinScan.SomeAbove | lab-4/assignment-4-memory-allocator/docs/malloc-impl.c:4233-4239 | otherwise a set bit follows, so the advancing loop finds one before the bit runs out |
| BinScan.Bins.constructor | lab-4/assignment-4-memory-allocator/docs/malloc-impl.c:1942-1953 | all bins empty and all bits clear satisfy every invariant |
| BinScan.LastIsSmallest | lab-4/assignment-4-memory-allocator/docs/malloc-impl.c:4241-4242 | the last chunk of the first non-empty bin is the smallest of all bins from the start of the scan on |
| BinScan.LargerBinLargerSize | lab-4/assignment-4-memory-allocator/docs/malloc-impl.c:4253-4257 | a chunk of a higher bin is at least the request, so the assertion cannot fail |
| BinScan.Bins.NextBlock | lab-4/assignment-4-memory-allocator/docs/malloc-impl.c:4220-4228 | the next block with a bit set; all bins passed are empty |
| BinScan.Bins.NextBit | lab-4/assignment-4-memory-allocator/docs/malloc-impl.c:4233-4239 | the first set bit of the word from the current one on; all bins passed are empty, and the assertion in the loop cannot fail |
| BinScan.Bins.ScanBins | lab-4/assignment-4-memory-allocator/docs/malloc-impl.c:4208-4250 | the binmap-guided scan ends at the first non-empty bin of a plain scan, or past the end exactly when all are empty; it clears bits of empty bins it passed and no others, and keeps "bit clear implies bin empty" |
| BinScan.Bins.BestFit | lab-4/assignment-4-memory-allocator/docs/malloc-impl.c:4208-4262 | the smallest chunk among all bins above the request's own, taken out of its bin, or use_top exactly when those bins are empty |
| BinScan.PlacedKeepsOrder | lab-4/assignment-4-memory-allocator/docs/malloc-impl.c:4037-4103 | placing keeps a bin sorted and adds exactly the new chunk |
| BinScan.SortedInPlace | lab-4/assignment-4-memory-allocator/docs/malloc-impl.c:4046-4103 | in a large bin the chunk goes behind all larger ones, before all smaller ones, and second among those of its size |
| BinScan.Bins.Place | lab-4/assignment-4-memory-allocator/docs/malloc-impl.c:4037-4103 | a placed chunk is at the front of its small bin, or at its place by size in its large bin, marked in the binmap; all other bins and all invariants are kept |
| ChunkRing.RingLinksUndo | lab-4/assignment-4-memory-allocator/docs/malloc-impl.c:1611-1612 | on a circular list `fd` and `bk` undo each other at every chunk |
| LargeBin.InsertedKeepsOrder | lab-4/assignment-4-memory-allocator/docs/malloc-impl.c:4046-4103 | after insertion the groups still have strictly falling sizes, one group per size |
| LargeBin.InsertedElements | lab-4/assignment-4-memory-allocator/docs/malloc-impl.c:4046-4103 | insertion adds exactly the new chunk to the bin |
| LargeBin.InsertedPlace | lab-4/assignment-4-memory-allocator/docs/malloc-impl.c:4077-4080 | the new chunk is alone in a group of its size, or second among those of its size |
| LargeBin.UnlinkedElements | lab-4/assignment-4-memory-allocator/docs/malloc-impl.c:1604-1642 | unlinking takes exactly that chunk out of the bin |
| LargeBin.UnlinkedKeepsOrder | lab-4/assignment-4-memory-allocator/docs/malloc-impl.c:1604-1642 | so they have after unlinking |
| LargeBin.InsertNewSize | lab-4/assignment-4-memory-allocator/docs/malloc-impl.c:4060-4100 | the writes for a size not yet in the bin rebuild both rings with the chunk at its place |
| LargeBin.InsertSameSize | lab-4/assignment-4-memory-allocator/docs/malloc-impl.c:4080-4084 | a chunk of a size already there becomes the second of that size and stays off the nextsize ring |
| LargeBin.UnlinkLater | lab-4/assignment-4-memory-allocator/docs/malloc-impl.c:1604-1620 | unlinking a chunk that is not the first of its size leaves the nextsize ring alone |
| LargeBin.UnlinkFirst | lab-4/assignment-4-memory-allocator/docs/malloc-impl.c:1624-1636 | the first of its size hands its place on the ring to the second, also when it is alone on the ring |
| LargeBin.UnlinkOnly | lab-4/assignment-4-memory-allocator/docs/malloc-impl.c:1637-1641 | the only chunk of its size leaves both rings |
| LargeBin.SecondInMemory | lab-4/assignment-4-memory-allocator/docs/malloc-impl.c:4148-4153 | comparing size words with the next chunk tells whether a size has a second chunk |
| LargeBin.Bin.constructor | lab-4/assignment-4-memory-allocator/docs/malloc-impl.c:1948-1953 | an empty bin whose header points to itself satisfies every invariant |
| LargeBin.Bin.Insert | lab-4/assignment-4-memory-allocator/docs/malloc-impl.c:4046-4103 | the insertion loop and its writes keep the sorted circular list and the nextsize ring of one chunk per size, and put the victim where the order wants it; neither corruption check fails |
| LargeBin.Bin.Unlink | lab-4/assignment-4-memory-allocator/docs/malloc-impl.c:1610-1642 | the writes of `unlink_chunk` remove exactly that chunk from both structures; its checks of the list and of the nextsize links never fail |
| LargeBin.Bin.SmallestFit | lab-4/assignment-4-memory-allocator/docs/malloc-impl.c:4135-4157 | a large request finds the smallest size that fits in its own bin, exactly when one fits, and takes the second chunk of that size if there is one |
| BestFit.InsertedIsSortedIn | lab-4/assignment-4-memory-allocator/docs/malloc-impl.c:4046-4103 | insertion by way of the skip ring is plain insertion into the sorted list of chunks |
| BestFit.OwnIsBest | lab-4/assignment-4-memory-allocator/docs/malloc-impl.c:4135-4157 | the smallest fitting chunk of the request's own bin is the smallest fitting one of all bins |
| BestFit.AboveIsBest | lab-4/assignment-4-memory-allocator/docs/malloc-impl.c:4208-4259 | when the own bin has none, the smallest chunk above it is |
| BestFit.Choose | lab-4/assignment-4-memory-allocator/docs/malloc-impl.c:4135-4259 | own bin, then binmap scan: the victim is the smallest fitting chunk over all bins, and top is used exactly when no binned chunk fits; only a victim from a higher bin leaves its bin here, from the end, and no other bin changes |
| BoundaryTags.TotalIsExtent | lab-4/assignment-4-memory-allocator/docs/malloc-impl.c:2117-2146 | the sizes of the chunks add up to the extent of the arena |
| BoundaryTags.TagsReleased | lab-4/assignment-4-memory-allocator/docs/malloc-impl.c:4552-4609 | after consolidation every size word holds its chunk's size and the in-use bit of the chunk below, and every binned chunk's foot its size |
| BoundaryTags.ReleasedConsolidated | lab-4/assignment-4-memory-allocator/docs/malloc-impl.c:4552-4609 | after consolidation no two binned chunks touch and none borders top |
| BoundaryTags.CheckFreeChunk | lab-4/assignment-4-memory-allocator/docs/malloc-impl.c:2117-2140 | what the debug check asserts of words and sizes holds of every free chunk: it claims to be free, its size is legal, its address as aligned as the arena, size and foot agree, and both neighbours are in use |
| BoundaryTags.NextKeeps | lab-4/assignment-4-memory-allocator/docs/malloc-impl.c:4262-4340 | freeing, reusing, consolidating, exhausting and splitting keep tiling, consolidation, extent, and every size word and foot |
| BoundaryTags.NextMeans | lab-4/assignment-4-memory-allocator/docs/malloc-impl.c:4262-4340 | an allocation gives the program one new chunk of at least the request and less than a chunk more that overlaps nothing it holds, a free takes one away, and consolidating fastbins changes nothing for the program |
| BoundaryTags.RunKeeps | lab-4/assignment-4-memory-allocator/docs/malloc-impl.c:4262-4760 | over every run of these steps the chunks tile the arena, no two binned ones touch, every size word and foot is right, and no byte is lost or gained |
| BoundaryTags.EveryFreeChunkIsSane | lab-4/assignment-4-memory-allocator/docs/malloc-impl.c:2117-2140 | from the first top chunk on, after every run, size word, foot and in-use bits of every free chunk are what the debug check expects |
| BoundaryTags.Arena.constructor | lab-4/assignment-4-memory-allocator/docs/malloc-impl.c:1942-1964 | an arena of one top chunk, with all lists empty, satisfies every invariant |
| BoundaryTags.Arena.Unlink | lab-4/assignment-4-memory-allocator/docs/malloc-impl.c:1604-1608 | the chunk leaves the unsorted list or its bin, and no other does; the size check cannot fail |
| BoundaryTags.Arena.JoinBelow | lab-4/assignment-4-memory-allocator/docs/malloc-impl.c:4552-4560 | exactly a free chunk below is unlinked and taken in |
| BoundaryTags.Arena.JoinAbove | lab-4/assignment-4-memory-allocator/docs/malloc-impl.c:4562-4597 | exactly a free chunk above is unlinked and taken in, otherwise its in-use bit is cleared; size word and foot of the result are written, and it goes to the front of the unsorted list |
| BoundaryTags.Arena.Release | lab-4/assignment-4-memory-allocator/docs/malloc-impl.c:4552-4609 | the in-place code, reading only size words and feet, merges exactly with the free neighbours or with top, writes exactly the words of the abstract step, takes exactly those neighbours off the unsorted list and puts the result in front of it unless it is top |
| BoundaryTags.Arena.Free | lab-4/assignment-4-memory-allocator/docs/malloc-impl.c:4445-4609 | a chunk of n bytes up to the limit goes to the front of fastbin n / 16 - 2 with tags and all other lists untouched; any other is consolidated, and no fastbin changes |
| BoundaryTags.Arena.TakeFast | lab-4/assignment-4-memory-allocator/docs/malloc-impl.c:3792-3819 | a small request takes the first chunk of the fastbin of exactly its size, if there is one, and leaves the tags alone |
| BoundaryTags.Arena.FreeThenTake | lab-4/assignment-4-memory-allocator/docs/malloc-impl.c:4487-4494 | fastbins are stacks: a small chunk just freed is the one the next request of its size gets, and then the whole arena is as before |
| BoundaryTags.Arena.MallocConsolidate | lab-4/assignment-4-memory-allocator/docs/malloc-impl.c:4694-4760 | all fastbins are emptied into consolidated chunks with every invariant kept at each step; the program's chunks and the end of the arena stay |
| BoundaryTags.Arena.TakeBinned | lab-4/assignment-4-memory-allocator/docs/malloc-impl.c:4259-4297 | a victim is exhausted, or split with its remainder in front of the unsorted list, with every tag right |
| BoundaryTags.Arena.TakeTop | lab-4/assignment-4-memory-allocator/docs/malloc-impl.c:4321-4340 | top is split exactly when a legal remainder is left, and otherwise nothing changes; the lists stay as they are |
| StoreBuffers.StoreIsSeen | sem/sem-8/main/cpu-reordering.c:24-30 | a thread's own loads see its store at once, and no other location changes for it |
| StoreBuffers.DrainIsUnseen | sem/sem-8/main/cpu-reordering.c:24-30 | draining a store to memory is invisible to the thread that made it |
| StoreBuffers.InvKept | sem/sem-8/main/cpu-reordering.c:20-71 | every instruction and every drained store of the fenced program keeps the invariant |
| StoreBuffers.NoReordering | sem/sem-8/main/cpu-reordering.c:62-66 | with both fences no run of any length reports two zeros, and main checks what memory holds |
| StoreBuffers.WorkersQuiet | sem/sem-8/main/cpu-reordering.c:54-63 | between main's second wait and its next posts no worker can execute or drain anything |
| StoreBuffers.ReorderingWithout0 | sem/sem-8/main/cpu-reordering.c:20-32 | without the first fence a reporting run exists, whatever the other thread has |
| StoreBuffers.ReorderingWithout1 | sem/sem-8/main/cpu-reordering.c:34-46 | without the second fence a reporting run exists, whatever the other thread has |
| StoreBuffers.SafeIffBothFences | sem/sem-8/main/cpu-reordering.c:20-71 | no run reports the reordering exactly when both fences are present |
| StoreBuffers.NeverStuck | sem/sem-8/main/cpu-reordering.c:20-71 | in every reachable state some action is possible |
| StoreBuffers.CheckIsReached | sem/sem-8/main/cpu-reordering.c:54-66 | however the threads are scheduled, main completes its check within a bounded number of actions |
| Ring.Ring.constructor | sem/sem-6/main/seminar-6/ring.h:94-95 | an empty ring |
| Ring.Ring.LinksUndo | sem/sem-6/main/seminar-6/ring.h:40-58 | next and prev undo each other on every node |
| Ring.Ring.First | sem/sem-6/main/seminar-6/ring.h:34-39 | the first value of a non-empty ring |
| Ring.Ring.Last | sem/sem-6/main/seminar-6/ring.h:28-33 | the last value of a non-empty ring |
| Ring.Ring.Push | sem/sem-6/main/seminar-6/ring.h:40-58 | appends a new node; without memory nothing changes |
| Ring.Ring.Pop | sem/sem-6/main/seminar-6/ring.h:59-75 | removes and frees the last node and returns its value, also when it is the only one |
| Ring.Ring.PushTop | sem/sem-6/main/seminar-6/ring.h:76-84 | prepends a new node; without memory nothing changes |
| Ring.Ring.PopTop | sem/sem-6/main/seminar-6/ring.h:85-91 | removes and frees the first node and returns its value |
| Ring.Ring.Free | sem/sem-6/main/seminar-6/ring.h:92-104 | the walk ends and frees every node exactly once, in order |
| Segments.WellFormedIffSegments | sem/sem-6/main/seminar-6/heap-1.c:11-18 | the local rule on statuses holds exactly for concatenations of FREE, ONE and FIRST CONT* LAST segments |
| Segments.AllFreeIsWellFormed | sem/sem-6/main/seminar-6/heap-1.c:13-18 | the zero-initialised heap is such a concatenation |
| Segments.BlockAllocate | sem/sem-6/main/seminar-6/heap-1.c:76-101 | the leftmost free run that fits is marked as one segment; it fails exactly for size 0 or when no run fits |
| Segments.HeapFree | sem/sem-6/main/seminar-6/heap-1.c:40-47 | clears the range, or refuses it when its end, modulo 2^64, reaches the number of blocks |
| Segments.BlockFreeSegmentWith | sem/sem-6/main/seminar-6/heap-1.c:109-137 | from any block of a segment both scans stop at that segment's own ends without wrap-around, and it alone is freed |
| Segments.BlockFree | sem/sem-6/main/seminar-6/heap-1.c:144-180 | frees from the first block only and returns the number of blocks freed |
| Segments.ScansMeet | sem/sem-6/main/seminar-6/heap-1.c:117-130 | between a block and the ends of its segment there is no other FIRST and no other LAST |
| Segments.FreesIff | sem/sem-6/main/seminar-6/heap-1.c:40-46 | freeing takes effect exactly for single blocks and for segments that stop short of the last block, and then on that segment alone |
| Segments.FreeUndoesAllocate | sem/sem-6/main/seminar-6/heap-1.c:76-137 | freeing undoes an allocation exactly when it has one block or does not end at the last block |
| Segments.WholeHeapStays | sem/sem-6/main/seminar-6/heap-1.c:40-46 | a fresh heap of at least two blocks, allocated whole, cannot be freed from any of its blocks |
| Segments.RunIsSegments | sem/sem-6/main/seminar-6/heap-1.c:76-180 | over every run the status array is a concatenation of whole segments |
| Tokens.SkipSeparators | sem/sem-6/main/seminar-6/tokenizer.c:37-42 | stops at the first byte that is no space, tab or line end |
| Tokens.ReadToken | sem/sem-6/main/seminar-6/tokenizer.c:44-72 | the token at the current place and the place behind it |
| Tokens.TokenizeText | sem/sem-6/main/seminar-6/tokenizer.c:80-99 | the loop fills the ring with the tokens of the text, except those a failed allocation loses, or frees it after an error |
| Tokens.ScanSeparator | sem/sem-6/main/seminar-6/tokenizer.c:11-42 | a space, tab or line end before any text makes no difference to its tokens |
| Tokens.ScanZero | sem/sem-6/main/seminar-6/tokenizer.c:49-52 | a zero byte ends the text |
| Tokens.ScanStray | sem/sem-6/main/seminar-6/tokenizer.c:86-90 | a byte that is no separator, no zero and begins no token makes the whole text an error |
| Tokens.ScanSymbols | sem/sem-6/main/seminar-6/tokenizer.c:54-60 | the token of each bracket and of +, * and / |
| Tokens.ScanMinus | sem/sem-6/main/seminar-6/tokenizer.c:91-93 | a minus is a sign at the start, after an opening bracket and after an operator, and a subtraction after anything else, another sign included |
| Tokens.ScanDigits | sem/sem-6/main/seminar-6/tokenizer.c:62-69 | a whole run of digits is one literal of its value, capped at INT64_MAX |
| Tokens.EnoughRoom | sem/sem-6/main/seminar-6/tokenizer.c:80-99 | when every allocation succeeds nothing is lost, and remembering the last token is as good as looking at the ring |
| Tokens.ScanPrint | sem/sem-6/main/seminar-6/ast.c:42-68 | a printed expression read where a sign may stand yields its tokens, whatever follows: NEG for unary minus and signs, MINUS for subtraction |
| Tokens.TokenizeOfPrint | sem/sem-6/main/seminar-6/tokenizer.c:44-99 | `tokenize` inverts `print_ast` up to token streams exactly when no literal is INT64_MIN, and rejects the text exactly when a child is null |
| Tokens.MinimumIsMisread | sem/sem-6/main/seminar-6/tokenizer.c:63-69 | INT64_MIN comes back as a sign and INT64_MAX |
| Tokens.PrintThenTokenize | sem/sem-6/main/seminar-6/tokenizer.c:80-99 | printing and tokenizing with enough memory yields the expression's tokens exactly when no literal is INT64_MIN |
| Tokens.PrintIsSpelled | sem/sem-6/main/seminar-6/ast.c:42-68 | the text is the expression's tokens spelled one after the other, left operand first, every operand of an operator in brackets, with nothing between |
| Tokens.ParseOfFlatten | sem/sem-6/main/seminar-6/ast.c:42-68 | the token stream determines the expression, whatever follows |
| Tokens.PrintIsInjective | sem/sem-6/main/seminar-6/ast.c:42-68 | different expressions print differently, null children and every literal included |
| Tokens.PrintSplits | sem/sem-6/main/seminar-6/ast.c:42-68 | a printed expression has one end only, whatever non-digit follows |
| Pictures.Image.constructor | lab-3/assignment-3-image-rotation/solution/src/image.c:3-9 | the pixel array has width times height cells modulo 2^32 |
| Pictures.TargetIsBijection | lab-3/assignment-3-image-rotation/solution/src/transformations.c:4-12 | every destination index is the target of exactly one source cell |
| Pictures.Rotate | lab-3/assignment-3-image-rotation/solution/src/transformations.c:4-12 | the nested loops produce the source turned by a quarter |
| Pictures.RotationIsFunction | lab-3/assignment-3-image-rotation/solution/src/transformations.c:4-12 | that determines every pixel of the result |
| Pictures.FourRotations | lab-3/assignment-3-image-rotation/solution/src/transformations.c:4-12 | four rotations give back the image |
| Bitmap.PaddingAligns | lab-3/assignment-3-image-rotation/solution/src/bmp_utils.c:3-6 | the padding is under four bytes, fills a row to a multiple of four, and is zero exactly for widths divisible by four |
| Bitmap.CreatePadding | lab-3/assignment-3-image-rotation/solution/src/bmp_utils.c:11-15 | an array of that many zero bytes |
| Bitmap.HeaderRoundTrip | lab-3/assignment-3-image-rotation/solution/src/bmp.c:22-40 | the packed little-endian header reads back as it was filled in |
| Bitmap.FileHeader | lab-3/assignment-3-image-rotation/solution/src/bmp.c:22-40 | the fixed bytes of a written header, and width and height with the low byte first |
| Bitmap.PixelInFile | lab-3/assignment-3-image-rotation/solution/src/bmp.c:93-98 | where each pixel lies in a written file: blue, green, red at three bytes a pixel and a padded row each |
| Bitmap.FileSize | lab-3/assignment-3-image-rotation/solution/src/bmp_utils.c:17-19 | rows are multiples of four bytes, and `bfileSize` is the file's length exactly when that fits 32 bits |
| Bitmap.ToBmp | lab-3/assignment-3-image-rotation/solution/src/bmp.c:80-100 | success exactly without rows or with a width not divisible by four, and then the file is header and padded rows; otherwise header and first row |
| Bitmap.FourByOne | lab-3/assignment-3-image-rotation/solution/src/bmp.c:93-98 | an image of four by one pixels cannot be written |
| Bitmap.WriteRows | lab-3/assignment-3-image-rotation/solution/src/bmp.c:90-99 | the row loop appends exactly the padded rows, or stops behind the first row's pixels |
| Bitmap.ReadHeader | lab-3/assignment-3-image-rotation/solution/src/bmp.c:8-58 | which status each malformed header gets, in the order of the tests |
| Bitmap.StatusOfBytes | lab-3/assignment-3-image-rotation/solution/src/bmp.c:42-78 | the status of a file, told from its first bytes: signature first, then bit count, then compression, then memory |
| Bitmap.FromBmp | lab-3/assignment-3-image-rotation/solution/src/bmp.c:42-78 | the status for every file, and on success the sizes and pixels the file holds |
| Bitmap.ReadImage | lab-3/assignment-3-image-rotation/solution/src/bmp.c:65-77 | the row loop reads exactly the rows, and fails exactly when one is cut off or empty |
| Bitmap.RoundTrip | lab-3/assignment-3-image-rotation/solution/src/bmp.c:22-100 | the file of an image, whatever its width, decodes to the same sizes and pixels, exactly unless it has rows of no pixels |
| Bitmap.WriteThenRead | lab-3/assignment-3-image-rotation/solution/src/bmp.c:42-100 | writing and reading back gives the same image exactly when there are no rows or the width is not divisible by four |
| Bitmap.ReadableIff | lab-3/assignment-3-image-rotation/solution/src/bmp.c:93-98 | which of the files that `to_bmp` leaves, failed or not, can be read |
| Decimal.PrintUint | lab-2/assignment-2-dictionary/lib.asm:95-115 | the digit loop leaves the decimal notation on the stack, inside its 21 bytes: at most 20 digits, of the register's value, with no leading zero |
| Decimal.PrintInt | lab-2/assignment-2-dictionary/lib.asm:83-90 | a register below 2^63 prints as its digits, any other as a minus and the digits of 2^64 less its value |
| Decimal.DigitAt | lab-2/assignment-2-dictionary/lib.asm:102-109 | each place holds the digit of its power of ten |
| Decimal.DigitsMean | lab-2/assignment-2-dictionary/lib.asm:95-115 | the notation of a 64-bit number: 1 to 20 digits whose value is the number, zero-led for zero only |
| Decimal.NoLeadingZero | lab-2/assignment-2-dictionary/lib.asm:102-109 | only zero starts with a zero |
| Decimal.AtMostTwenty | lab-2/assignment-2-dictionary/lib.asm:95-115 | a 64-bit number has at most 20 digits |
| Decimal.ParseUint | lab-2/assignment-2-dictionary/lib.asm:244-260 | the value modulo 2^64 of the longest run of digits in front, and its length |
| Decimal.ParseInt | lab-2/assignment-2-dictionary/lib.asm:269-277 | without a minus the same; after a minus the number that adds up with the value of the digits to 0 modulo 2^64, and a length one more |
| Decimal.UintRoundTrip | lab-2/assignment-2-dictionary/lib.asm:95-260 | `parse_uint` reads every 64-bit number back from `print_uint`, with its length, whatever non-digit follows |
| Decimal.IntRoundTrip | lab-2/assignment-2-dictionary/lib.asm:83-277 | `parse_int` reads every signed number back from `print_int`, the least one by wrap-around |
| Decimal.NoNumberLengthZero | lab-2/assignment-2-dictionary/lib.asm:263-277 | length 0 without a number, except exactly for a minus that no digit follows |
| Decimal.LoneMinus | lab-2/assignment-2-dictionary/lib.asm:263-277 | the string "-" gives length 1 |

## Left out

- The kernel: `mmap` answers are parameters, a failure or a fresh page-aligned range (pages of at least 64 bytes whose size divides 8192); `BSR_CORRUPTED`, which the source never produces, and debug output are not modelled.
- Calls outside their contract: freeing what is not live, image sizes whose product exceeds 32 bits, and popping or asking an empty ring (`ring.h:28-39`, `ring.h:63`, `ring.h:89`) are excluded by preconditions.
- Of the ptmalloc reference: tcache, fastbin compare-and-swap loops, several arenas, locks, memory tagging, hooks, `sysmalloc`, `systrim` and statistics; of the flag bits in size words only PREV_INUSE.
- BinScan.Bins.Place: keeps each bin as the sequence its list threads, so the link writes do not appear; those of large bins are in `LargeBin`.
- BoundaryTags.Arena.Unlink: the unsorted list and the fastbin chains are sequences and the regular bins a set of chunks; how a bin's links are rewritten is the subject of `LargeBin`.
- BoundaryTags.CheckFreeChunk: leaves out the two assertions on `fd` and `bk` (malloc-impl.c:2141-2142), which `LargeBin` proves for large bins.
- BoundaryTags.NextKeeps: says nothing of the unsorted list, the bins and the fastbins; the methods of `Arena`, whose results are these steps, keep them.
- BoundaryTags.Arena.MallocConsolidate: does not state the order of the unsorted list afterwards; each step of it, `Release`, does.
- BestFit.Choose: starts when no unsorted chunk is left; a victim of the own bin is unlinked by `LargeBin.Bin.Unlink`, and split by `BoundaryTags.Arena.TakeBinned`.
- StoreBuffers: the bound of one million iterations in main is dropped, so a run may go on for any number of iterations.
- Segments.BlockFree: where the source falls off its end without a value (`heap-1.c:145`, `heap-1.c:180`) the model answers `NoValue`.
- Pictures.Image.constructor: memory suffices; a failed allocation appears only as the `room` of `from_bmp`, and `rotate` does not look for one.
- Bitmap.ToBmp: device errors of stdio, opening and closing are left out, so `WRITE_HEADER_ERROR` never arises.
- Bitmap.FromBmp: seeking never fails, and the release of the pixels after a read error is not shown.
- `print_int` and `print_uint` return their text instead of writing it to standard output.
- `calc_ast`, `p_print_ast` and `build_ast` are unfinished in the source; `heap-0.c`, the generic lists, `main` functions, the dictionary macro and the other assembly routines would only add easy members.
