# Explicit-list allocator with boundary tags, in Dafny

This project models `mm.c`, a malloc package for a single contiguous heap
region. Every block carries a header and a footer word that hold its size
and its allocated bit. A prologue block opens the heap and a size-0
epilogue header closes it. The free blocks form a doubly linked list
through the first two double words of their payloads. New entries go on the
front of the list (LIFO). `mm_malloc` takes the first block on the list that
fits, and splits it when at least a minimum block of 24 bytes would be
left. When no block fits, it grows the heap with `extend_heap` and
coalesces the new space with a free block just before it. `mm_free` clears
both tags and coalesces with free neighbours (the four cases of
`coalesce`). `mm_realloc` keeps the block in place when it is large enough,
cutting off a free remainder when more than a minimum block is left over;
otherwise it moves the block. `mm_calloc` is `mm_malloc` followed by
`bzero`.

The model is layered:

- **Layout** (`layout.dfy`): the constants and word macros, with the
  padded request size and the growth size.
- **Blocks** (`blocks.dfy`): the block record, the address macros on a
  memory image, and the abstract shape of a heap: its blocks in address
  order, laid end to end from the prologue to the break.
- **FreeList** (`freelist.dfy`): the free list as a sequence of block
  pointers, and its representation through link words.
- **Routines** (`routines.dfy`): each routine of `mm.c` as a function
  from state (memory image, break, `free_listp`) to state, written
  statement by statement.
- **Transitions** (`transitions.dfy`): what each routine does to the
  abstract shape, and the shape invariants each step keeps.
- **Memory** (`memory.dfy`), **Frames** (`frames.dfy`), **Steps**
  (`steps.dfy`), **Effects** (`effects.dfy`): the memory image stays
  consistent with the shape; each routine moves image and shape together;
  payloads of allocated blocks are untouched.
- **Checks** (`checks.dfy`): the per-block checks of `mm_checkheap` hold
  on every consistent heap, with the prologue tested at its own block
  pointer; the epilogue test as written fails on every heap (see Findings).
- **Allocator** (`allocator.dfy`): the class `Heap`. Its fields are the
  region (`mem: array<int>`), the break, `free_listp`, and the ghost shape
  (`blocks`, `free`). Its methods write the region word by word as `mm.c`
  does. Each is proved to compute its routine, and `Valid()`, the tie
  between image and shape, is kept throughout.

Memory is one `int` cell per byte offset from `heap_listp`, which is offset
0 and doubles as NULL. The 32-bit word at offset `p` lives in `mem[p]`. A
free-list link (an 8-byte pointer) is its value in `mem[p]` and 0 in
`mem[p + 4]`. `mem_sbrk` is the method `Sbrk` over a region of fixed
capacity: it moves the break, or fails with -1 when the region is full.

## Model

| member | source | states |
|---|---|---|
| Layout.Align | mm.c:41 | ALIGN rounds up to the next multiple of 8: the result is aligned and lies in [p, p + 8). |
| Layout.PackRoundTrip | mm.c:52-61 | GET_SIZE and GET_ALLOC recover the size and the bit from PACK(size, alloc), for sizes that are multiples of 8 and alloc in {0, 1}. |
| Layout.PackBitsRoundTrip | mm.c:53-61 | The same round trip on 32-bit words, with the masks `& ~0x7` and `& 0x1` written as bit-vector operations. |
| Layout.BitsAsArithmetic | mm.c:53-61 | On 32-bit words the masks of GET_SIZE and GET_ALLOC are `w - w % 8` and `w % 2`, and PACK of an aligned size is addition; this is the link between the bit-level macros and the arithmetic model. |
| Layout.SizeAligned | mm.c:60 | GET_SIZE of any word is a multiple of 8 and is at most 7 below the word. |
| Layout.AdjustedSize | mm.c:136 | The padded block size of a request is a multiple of 8, at least 24, and has room for the payload plus header and footer. It is the least such size unless it is the 24-byte floor. |
| Layout.ExtendSize | mm.c:282-285 | extend_heap's byte count is a multiple of 8 (an even number of words), at least 24, and covers the words asked for. It is the least such count unless it is the 24-byte floor. |
| Layout.GrowthFitsRequest | mm.c:145-146 | For a padded size, growing by MAX(asize, CHUNKSIZE)/WSIZE words adds exactly asize bytes. |
| Layout.InitialChunk | mm.c:112 | mm_init's first growth of CHUNKSIZE/WSIZE = 4 words is raised to one 24-byte block. |
| Layout.CallocBytes | mm.c:236 | `nmemb*size` in size_t: below 2^64, and the true product when that fits. |
| Layout.AlignAsWritten | mm.c:41 | ALIGN in size_t arithmetic: a multiple of 8 below 2^64. |
| Layout.AdjustedSizeAsWritten | mm.c:136 | The padded size as written (also at mm.c:182), with the size_t wrap-around: a multiple of 8, at least 24. |
| Layout.AsWrittenAgreesBelowWrap | mm.c:136 | For requests up to 2^64 - 16 the as-written padded size equals AdjustedSize. |
| Layout.AsWrittenWrapsAbove | mm.c:136 | For requests above 2^64 - 16 the as-written padded size wraps to 24, smaller than the request itself. |
| Blocks.SetTagsInRange | mm.c:167-168 | Writing a block's header and footer changes exactly the two words HDRP(bp) and FTRP(bp), both to PACK(size, alloc). |
| Blocks.NewBlockTagsInRange | mm.c:290-292 | extend_heap's three stores set the new block's header and footer to PACK(size, 0) and the next word to the epilogue PACK(0, 1), and nothing else. |
| Blocks.Ordered | mm.c:68 | In a laid-out heap, each block ends at or before the start of every later block, and all of them lie between the first real block and the break: NEXT_BLKP walks forward. |
| Blocks.Disjoint | mm.c:63-69 | Two distinct blocks of a laid-out heap do not overlap. |
| FreeList.Remove | mm.c:421-428 | Removing a pointer from the free list keeps every other entry and drops that one. |
| FreeList.RemoveAt | mm.c:421-428 | On a list without repeats, removing the i-th entry is the list with position i cut out. |
| FreeList.SpacedRemove | mm.c:421-428 | Removal keeps the list free of repeats and overlapping entries. |
| FreeList.LinkedAfterRemoveAt | mm.c:421-428 | After remove_block's link updates, the link words describe the list without entry i. The head moves to the successor exactly when the removed entry had no predecessor. |
| FreeList.LinkedAfterInsert | mm.c:413-419 | After insert_first's three link stores, the link words describe the list with bp in front, and bp is the head. |
| Routines.SbrkResult | mm.c:286 | mem_sbrk's result is negative exactly when the region cannot grow by the increment; otherwise it is the old break. |
| Routines.InitGuardMissesFailure | mm.c:98 | When the region cannot hold the initial 48 bytes, mem_sbrk's failure value is not NULL, so mm_init's `== NULL` test misses the failure. |
| Transitions.FirstFit | mm.c:335-340 | The first position in the list whose size fits: every earlier entry is too small, and the result is the length of the list when none fits. |
| Transitions.FirstFitStep | mm.c:335-338 | One step of find_fit's loop: stop at an entry that fits, go on past one that does not. |
| Transitions.CoalescedShape | mm.c:352-380 | After coalesce, the blocks before the merged run are unchanged, the run is one block, and the blocks after it shift down. |
| Transitions.CoalesceIsolated | mm.c:352-355 | Case 1: with both neighbours allocated the shape is unchanged and bp goes on the front of the free list. |
| Transitions.CoalesceSound | mm.c:346-385 | coalesce keeps the heap laid out to the same break, leaves no two adjacent free blocks, keeps every allocated block, and the free list tracks exactly the free blocks. The merged block's neighbours are allocated. |
| Transitions.CoalescedKeepsAllocated | mm.c:346-385 | coalesce keeps every allocated block. |
| Transitions.PlaceSound | mm.c:307-325 | place keeps the heap laid out with no adjacent free blocks and the list tracking the free blocks. Block k becomes allocated with asize bytes when the remainder is at least 24, and whole otherwise. |
| Transitions.PlacedWhole | mm.c:320-323 | The no-split branch of place marks the block allocated and removes it from the free list. |
| Transitions.SplitRemainderNeverMerges | mm.c:315-318 | The remainder split off by place has no free neighbour, so coalesce only puts it on the front of the list. |
| Transitions.GrownTail | mm.c:290-295 | After extend_heap the last block is the merged new space: free, at least as large as the growth. Every allocated block is kept. |
| Transitions.FreedShape | mm.c:157-171 | After mm_free, every other allocated block is kept, the freed block is no longer allocated, and it lies inside a free block. |
| Transitions.ShrunkShape | mm.c:200-209 | Cutting an allocated block down in place keeps the heap laid out to the same break and keeps every other allocated block. |
| Transitions.ShrunkIsFreed | mm.c:205-208 | mm_realloc's in-place shrink is the split whose remainder is then freed: the result is the Shrunk shape. |
| Memory.GrowTags | mm.c:290-292 | The three stores of extend_heap leave the grown shape tagged and the new epilogue in place. |
| Memory.MergeTags | mm.c:357-380 | Writing the merged size into the first header and the last footer of the run (the two PUTs of cases 2-4) tags the coalesced shape. |
| Memory.SplitTags | mm.c:311-317 | place's four tag stores tag the split shape. |
| Memory.ShrinkTags | mm.c:205-207 | mm_realloc's three tag stores tag the shape with block k cut down. The remainder's footer is still to be written by mm_free. |
| Frames.CopyStep | mm.c:221 | One more byte of memcpy extends the copied prefix and keeps every other payload. |
| Frames.ZeroStep | mm.c:237 | One more byte of bzero extends the cleared prefix and keeps every other payload. |
| Frames.MoveKept | mm.c:212-224 | Across malloc, copy and free, the first len bytes of the old payload arrive at the new block, and every other allocated payload is kept. |
| Frames.FreshKept | mm.c:236-237 | Across malloc and bzero of the fresh block, every block allocated before keeps its payload. |
| Effects.RemoveLinksSound | mm.c:421-428 | remove_block on the i-th free block leaves the list without it, with the head updated when i is 0. Only link words change. |
| Effects.InsertLinksSound | mm.c:413-419 | insert_first leaves the list with bp in front and bp as the head. Only link words change. |
| Effects.UnlinkSound | mm.c:357-377 | The remove_block calls of cases 2-4 of coalesce unlink the free neighbours, and yield the merged block's pointer and size. |
| Effects.CoalesceEffect | mm.c:346-385 | coalesce's memory writes take a consistent image to the Coalesced shape and list. It returns the merged block's pointer, now the list head, and keeps every allocated payload. |
| Effects.PlaceEffect | mm.c:307-325 | place's writes take a consistent image to the Placed shape and list, and keep every allocated payload. |
| Effects.FitEffect | mm.c:331-341 | find_fit returns NULL exactly when no free block holds asize; otherwise it returns a free block that fits and is first on the list. |
| Effects.ExtendEffect | mm.c:275-298 | extend_heap fails and changes nothing when the region cannot grow by ExtendSize(words). Otherwise the break grows by that much and the image describes the grown-then-coalesced shape. It returns the merged block. |
| Effects.FreeEffect | mm.c:157-171 | mm_free's writes take a consistent image to the Freed shape and list, keeping the other allocated payloads. |
| Effects.OneFreeBlock | mm.c:111-113 | After mm_init's first growth the heap is one free 24-byte block, the only list entry. |
| Effects.ShrinkEffect | mm.c:205-207 | mm_realloc's tag stores give a consistent image of the cut-down shape, pending the remainder, and keep the kept block's payload. |
| Effects.ShrinkThenFree | mm.c:205-208 | After the shrink and the free of the remainder, the cut-down block is allocated and keeps its payload, and the remainder lies inside a free block. |
| Checks.BlockAligned | mm.c:407 | Every block pointer of a laid-out heap is 8-aligned. |
| Checks.TaggedBlockChecks | mm.c:405-411 | checkblock passes on a tagged block: it is aligned and its header equals its footer. |
| Checks.BlockOfHeapChecks | mm.c:405-411 | checkblock passes on every block of a consistent heap, whose header holds its allocated bit. |
| Checks.HeapChecks | mm.c:246-267 | The per-block tests of mm_checkheap pass on a consistent heap, with the prologue tested at its own bp: the prologue header is (24, 1), every block and every list entry passes checkblock, list entries are free, and the list runs from free_listp to the prologue. |
| Checks.EpilogueTestAsWritten | mm.c:257-266 | On every consistent heap the free-list walk stops at the prologue, whose header has size 24, not 0, so the epilogue test reports an error on every heap. |
| Checks.EpilogueChecks | mm.c:265 | On every consistent heap with a block, the header below the break has size 0 and is allocated: the epilogue test as intended passes. |
| Allocator.Heap.Sbrk | mm.c:286 | mem_sbrk: the old break and a break grown by incr, or -1 with the break unchanged when the region is full. |
| Allocator.Heap.PutWord | mm.c:57 | PUT changes exactly the word at p. |
| Allocator.Heap.PutLink | mm.c:72-73 | A store through NEXT_FBLKP or PREV_FBLKP writes an 8-byte link. |
| Allocator.Heap.InsertFirst | mm.c:413-419 | Computes insert_first's state (proved against Effects.InsertLinksSound). |
| Allocator.Heap.RemoveBlock | mm.c:421-428 | Computes remove_block's state (proved against Effects.RemoveLinksSound). |
| Allocator.Heap.FindFit | mm.c:331-341 | The loop computes find_fit's result along the list (proved against Effects.FitEffect). |
| Allocator.Heap.Coalesce | mm.c:346-385 | Computes coalesce's state and returned pointer, all four cases. |
| Allocator.Heap.RemoveNeighbours | mm.c:373-377 | Case 4: both neighbours unlinked, returning the left neighbour. |
| Allocator.Heap.MergeTags | mm.c:378-382 | Tags the merged block and puts it on the front of the list. |
| Allocator.Heap.Place | mm.c:307-325 | Computes place's state in both branches. |
| Allocator.Heap.PlaceSplit | mm.c:311-319 | The split branch: front allocated, remainder tagged free and coalesced. |
| Allocator.Heap.TakeBlock | mm.c:312-314 | Tags the block allocated and removes it from the list (also the no-split branch, mm.c:321-323). |
| Allocator.Heap.TagRemainder | mm.c:315-317 | Tags the remainder as a free block and returns its pointer. |
| Allocator.Heap.ExtendHeap | mm.c:275-298 | Computes extend_heap's state and result: NULL with nothing changed when mem_sbrk fails. |
| Allocator.Heap.WriteNewBlock | mm.c:290-292 | Exactly the three stores of the new block's tags and the new epilogue. |
| Allocator.Heap.WriteTags | mm.c:167-168 | Exactly the two stores of a block's header and footer. |
| Allocator.Heap.Prologue | mm.c:100-108 | After the padding, prologue and epilogue stores, the empty heap is consistent and free_listp is the prologue. |
| Allocator.Heap.Init | mm.c:95-115 | 0 with a heap of one free 24-byte block, the only list entry, when the region holds 72 bytes; -1 otherwise. |
| Allocator.Heap.Malloc | mm.c:122-150 | NULL, with nothing changed, exactly for size 0 or when no block fits and the region cannot grow by asize. On a fit, the break is unchanged, the block is first on the list, and the shape is Placed. On a miss, the break grows by asize and the shape is GrownPlaced. Both outcomes are summed up as MallocShape. Every earlier allocation and its payload is kept. |
| Allocator.Heap.MallocShaped | mm.c:136-149 | mm_malloc's search and placement on a given shape: NULL with nothing changed exactly when no block fits and the region cannot grow; otherwise a fresh allocated block of at least asize bytes, and the shape is MallocShape (Placed on a fit, GrownPlaced on a miss). |
| Allocator.Heap.MallocBlock | mm.c:136-149 | The same on a given shape, with `fit` telling which path was taken. |
| Allocator.Heap.FitBlock | mm.c:331-341 | NULL exactly when no free block fits; otherwise a free block that fits, first on the list. |
| Allocator.Heap.GrowAndPlace | mm.c:144-149 | NULL with nothing changed when the region cannot grow by asize. Otherwise the break grows by asize and the shape is GrownPlaced. |
| Allocator.Heap.PlaceGrown | mm.c:148 | place on the block that extend_heap returned gives the GrownPlaced shape. |
| Allocator.Heap.PlaceBlock | mm.c:307-325 | place on free block k gives the Placed shape and list, and block k allocated with at least asize bytes. |
| Allocator.Heap.GrowBlock | mm.c:275-298 | NULL exactly when the region cannot grow by ExtendSize(words). Otherwise the break grows by that much and the shape is the grown shape coalesced, whose last block is returned. |
| Allocator.Heap.Free | mm.c:157-171 | NULL is a no-op: state, shape and region unchanged. Otherwise the shape becomes Freed and the list FreedFree: the block is no longer allocated and lies inside a free block. Every other allocated payload is kept. |
| Allocator.Heap.FreeBlock | mm.c:161-169 | The same on a given shape. |
| Allocator.Heap.ClearAndCoalesce | mm.c:167-169 | Computes mm_free's state: both tags cleared, then coalesce. |
| Allocator.Heap.Realloc | mm.c:178-227 | Size 0 frees ptr (Freed shape) and gives NULL; NULL ptr with size 0 changes nothing. NULL ptr with size > 0 is Malloc, with its MallocShape. Otherwise the block stays exactly when it is large enough: unchanged when the surplus is at most 24, with the Shrunk shape and the same break otherwise. A too-small block moves to a fresh block. NULL, with nothing changed, exactly when it is too small and no block can be had. The first min(size, payload) bytes arrive at the result. Every other allocation is kept. |
| Allocator.Heap.Resize | mm.c:195-226 | The same for an allocated ptr and size > 0. |
| Allocator.Heap.ResizeBlock | mm.c:195-226 | The same on a given shape. |
| Allocator.Heap.ShrinkBlock | mm.c:200-209 | The in-place cut: the shape becomes Shrunk and the list ShrunkFree. The kept block is allocated with asize bytes and keeps its payload, and the remainder lies inside a free block. |
| Allocator.Heap.ShrinkFront | mm.c:205-207 | The three tag stores give a consistent image of the cut-down shape, pending the remainder. |
| Allocator.Heap.ShrinkTagsInPlace | mm.c:205-207 | Exactly the three tag stores of the cut. |
| Allocator.Heap.MoveBlock | mm.c:212-226 | The moving path: NULL with nothing changed when no block can be had. Otherwise a fresh block of at least asize bytes, the payload copied into it, and the old block freed; the shape is MoveShape: mm_malloc's MallocShape, then mm_free's Freed of ptr's block. |
| Allocator.Heap.MoveInto | mm.c:220-224 | Copy then free: the bytes arrive, ptr is no longer allocated, the other allocations are kept, and the shape is MoveShape. |
| Allocator.Heap.CopyAndFree | mm.c:221-224 | memcpy of n bytes into the new block, then mm_free of the old one: the shape becomes Freed and the list FreedFree of ptr's block, completing MoveShape. |
| Allocator.Heap.CopyInto | mm.c:221 | memcpy: n bytes moved from src to dst, every other allocated payload kept. |
| Allocator.Heap.StorePayload | mm.c:221 | One byte stored into an allocated payload keeps the heap consistent. |
| Allocator.Heap.Calloc | mm.c:229-241 | NULL, with nothing changed, exactly when nmemb*size (mod 2^64) is 0 or cannot be allocated. Otherwise a fresh block of at least that many bytes, all zero, with mm_malloc's MallocShape and break, and every earlier allocation kept. |
| Allocator.Heap.CallocBlock | mm.c:236-237 | mm_malloc then bzero of n > 0 bytes on a given shape: MallocShape and its break, and n zero bytes at the result. |
| Allocator.Heap.ZeroFill | mm.c:237 | bzero: n bytes at dst are zero, every other allocated payload kept. |

## Left out

- AdjustedSize: does not model the size_t wrap of ALIGN (mm.c:41, mm.c:136, mm.c:182). For a request above 2^64 - 16 the source pads to 24 bytes. Malloc, Realloc and Calloc use the intended padding instead. The wrap is modelled by AdjustedSizeAsWritten and shown by AsWrittenWrapsAbove (see Findings).
- Calloc: returns NULL when mm_malloc fails for n > 0 bytes. The source then calls `bzero(NULL, n)` (mm.c:237), whose behaviour C leaves undefined. The model stops at the NULL.
- CopyInto: memory is one unbounded `int` per byte offset, with 32-bit words held whole at their first offset, so memcpy copies cells, not bytes. The same holds for ZeroFill and StorePayload.
- PutWord: PUT (mm.c:57) stores an unbounded integer where C stores a 32-bit `int`. Sizes of 2^31 or more are not truncated.
- Init: tests mem_sbrk's result with `< 0`, as extend_heap does (mm.c:286), where mm_init tests `== NULL` (mm.c:98). InitGuardMissesFailure models the test as written (see Findings).
- Realloc: assumes the DRIVER aliases (mm.c:29-35), so its malloc and free calls are mm_malloc and mm_free and the heap is the same.
- Realloc: promises the first min(size, payload) bytes, where the payload is oldsize - 8 bytes. memcpy copies min(size, oldsize) bytes (mm.c:220-221). The extra bytes are the old footer and the next header. The next header can change inside mm_malloc before the copy (when the next block is the one placed), so nothing about them holds relative to the state before the call. The same holds for Resize, ResizeBlock and MoveBlock.
- ResizeBlock: on the moving path (mm.c:212-226) it does not restate the resulting shape. MoveBlock states it as MoveShape: mm_malloc's MallocShape, then mm_free's Freed of ptr's block. ResizeBlock states the new block's size, the copied bytes and the freeing of ptr.
- Resize: on the moving path it does not restate the resulting shape, for the same reason as ResizeBlock; MoveBlock states it as MoveShape.
- Realloc: on the moving path it does not restate the resulting shape, for the same reason as ResizeBlock; MoveBlock states it as MoveShape.
- HeapChecks: the prologue test reads HDRP(heap_listp) (mm.c:253-255), the word at offset -4, before the start of the region, where C's behaviour is undefined. The lemma tests the prologue at its own block pointer PROLOGUE_BP instead.
- HeapChecks: the epilogue test (mm.c:265-266) looks at the block where the free-list walk stops, which is always the prologue, so as written it reports an error on every heap. EpilogueTestAsWritten shows this and EpilogueChecks proves the intended test (see Findings). The printing and `verbose` output of mm_checkheap, and printblock (mm.c:387-403), are not modelled.
- Init: the region is assumed to read as zero beyond the break, as the constructor's ZeroFrom and Init's requires state, and the word at GAP_WORD (offset 40) must read 0 (Sentinels). coalesce's first-block guard `PREV_BLKP(bp) == bp` (mm.c:348) depends on that word reading size 0. mem_sbrk in memlib.c is not part of this model, so what the region holds before the first write is assumed rather than derived.
- mem_sbrk is defined in memlib.c, which is not part of this model. It is modelled by Sbrk over a region of fixed capacity that returns -1 when the region is full.
- Concurrency is not modelled: the allocator has no locking and is single-threaded.
- Malloc and the other entry points require a heap that mm_init set up (`Valid()`). The commented-out lazy `mm_init` calls (mm.c:127-129, mm.c:162-164, mm.c:232-234) are not modelled.
- Free and Realloc require ptr to be NULL or an allocated block from this heap. The source does not check this, and on other pointers its behaviour is undefined.

## Findings

| source | as written | input that shows it | evidently intended | confidence | as-written member | corrected member |
|---|---|---|---|---|---|---|
| mm.c:41, mm.c:136, mm.c:182 | `MAX(ALIGN(size) + DSIZE, BLOCKSIZE)` in size_t wraps for requests above 2^64 - 16 | size = 2^64 - 8: ALIGN gives 2^64 - 8, + 8 wraps to 0, and MAX gives 24, so mm_malloc returns a 24-byte block for a request of 2^64 - 8 bytes | the padded size is at least size + 8, or the request fails | high (not executed) | Layout.AsWrittenWrapsAbove | Layout.AdjustedSize |
| mm.c:98 | `mem_sbrk(2*BLOCKSIZE) == NULL` | a region with fewer than 48 bytes: mem_sbrk returns (void *)-1, which is not NULL, so mm_init goes on to write the prologue at address -1 | test for mem_sbrk's failure value, as extend_heap does with `< 0` (mm.c:286) | high (not executed) | Routines.InitGuardMissesFailure | Allocator.Heap.Init |
| mm.c:257-266 | the epilogue test `GET_SIZE(HDRP(bp)) != 0` uses bp after the free-list walk, which stops at the first allocated block: always the prologue | any heap that mm_init set up: the walk ends at the prologue, whose header has size 24, so "Bad epilogue header" is printed | test the header just below the break, the epilogue's (size 0, allocated) | high (not executed) | Checks.EpilogueTestAsWritten | Checks.EpilogueChecks |
