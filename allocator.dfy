/*
 * The allocator itself: the region, the break and the free-list head as the
 * state of a Heap object, and the routines of mm.c as methods that update
 * them word by word.  Each method is proved to move the abstract shape
 * (ghost fields blocks and free) as the functions of Transitions say, and
 * to keep the heap consistent.
 */
module Allocator {
  import opened Layout
  import opened Blocks
  import opened FreeList
  import opened Transitions
  import opened Frames
  import opened Memory
  import opened Steps
  import opened Routines
  import opened Effects

  class Heap {
    /** The region, one cell per byte offset from heap_listp; the word at offset p is mem[p]. */
    var mem: array<int>
    /** The end of the region obtained so far (mem_sbrk's break). */
    var brk: int
    /** free_listp, as an offset. */
    var freeListp: int
    /** The blocks from the first real block to the epilogue, in address order. */
    ghost var blocks: seq<Block>
    /** The free list from its head. */
    ghost var free: seq<int>

    /** The heap between operations: consistent, every free block linked in, every footer current. */
    ghost predicate Valid()
      reads this, mem
    {
      Sound(Snapshot(), blocks, free)
    }

    /** A region of `capacity` bytes that reads as zero, none of it obtained yet. */
    constructor (capacity: nat)
      ensures mem.Length == capacity && brk == 0 && ZeroFrom(mem[..], 0)
      ensures blocks == [] && free == []
    {
      mem := new int[capacity](_ => 0);
      brk := 0;
      freeListp := 0;
      blocks := [];
      free := [];
    }

    /** PUT(p, v). */
    method PutWord(p: int, v: int)
      requires 0 <= p < mem.Length
      modifies mem
      ensures mem[..] == Put(old(mem[..]), p, v)
    {
      mem[p] := v;
    }

    /** Store a free-list link (an offset) into the 8-byte slot at p. */
    method PutLink(p: int, v: int)
      requires 0 <= p && p + WSIZE < mem.Length
      modifies mem
      ensures mem[..] == Link(old(mem[..]), p, v)
    {
      mem[p] := v;
      mem[p + WSIZE] := 0;
    }

    /**
     * The growth primitive: extend the region by incr bytes and return the
     * old break, or return -1 and change nothing when the capacity would be
     * exceeded.  Nothing is written into the region.
     */
    method Sbrk(incr: nat) returns (p: int)
      modifies `brk
      ensures old(brk) + incr <= mem.Length ==> p == old(brk) && brk == old(brk) + incr
      ensures old(brk) + incr > mem.Length ==> p == -1 && brk == old(brk)
    {
      if brk + incr <= mem.Length {
        p := brk;
        brk := brk + incr;
      } else {
        p := -1;
      }
    }

    /** The state the routines of Routines act on. */
    ghost function Snapshot(): State
      reads `mem, `brk, `freeListp, mem
    {
      State(mem[..], brk, freeListp)
    }

    /**
     * insert_first (mm.c lines 413-419): bp's next link takes the old head,
     * the old head's previous link takes bp, bp's previous link becomes
     * NULL and bp becomes the head (InsertLinksSound says what this does to
     * an encoded list).
     */
    method InsertFirst(bp: int)
      requires 0 <= bp && bp + DSIZE + WSIZE < mem.Length && 0 <= freeListp && freeListp + WSIZE < mem.Length
      modifies mem, `freeListp
      ensures Snapshot() == InsertLinks(old(Snapshot()), bp)
    {
      PutLink(bp + DSIZE, freeListp);
      PutLink(freeListp, bp);
      PutLink(bp, NULL);
      freeListp := bp;
    }

    /**
     * remove_block (mm.c lines 421-428): the predecessor's next link (or
     * free_listp when there is none) takes bp's successor, and the
     * successor's previous link takes bp's predecessor, both links read
     * again after the first write (RemoveLinksSound says what this does to
     * an encoded list).
     */
    method RemoveBlock(bp: int)
      requires Unlinkable(mem[..], bp)
      modifies mem, `freeListp
      ensures Snapshot() == RemoveLinks(old(Snapshot()), bp)
    {
      var prev := mem[bp];
      var next := mem[bp + DSIZE];
      if prev != NULL {
        PutLink(prev + DSIZE, next);
      } else {
        freeListp := next;
      }
      prev := mem[bp];
      next := mem[bp + DSIZE];
      PutLink(next, prev);
    }

    /**
     * find_fit (mm.c lines 331-341): walk the free list from free_listp
     * until a header says allocated (the prologue ends the list), returning
     * the first block of at least asize bytes, or NULL (FitEffect says what
     * the result is in terms of the blocks).
     */
    method FindFit(asize: int, ghost fl: seq<int>) returns (bp: int)
      requires Walkable(mem[..], freeListp, fl)
      ensures bp == FitOf(mem[..], fl, asize)
    {
      ghost var sizes := ListSizes(mem[..], fl);
      bp := freeListp;
      ghost var i := 0;
      while GetAlloc(mem[bp - WSIZE]) == 0
        invariant 0 <= i <= |fl| && bp == ListAt(fl, i)
        invariant i <= FirstFit(sizes, asize)
        decreases |fl| - i
      {
        var size := GetSize(mem[bp - WSIZE]);
        assert size == sizes[i];
        FirstFitStep(sizes, asize, i);
        if asize <= size {
          return;
        }
        bp := mem[bp + DSIZE];
        i := i + 1;
      }
      bp := NULL;
    }

    /**
     * coalesce (mm.c lines 346-385) on the free block bp, which is not yet on
     * the free list: it computes CoalesceStep, so (CoalesceEffect) the free
     * neighbours are unlinked, the merged block is tagged and put at the
     * head of the free list, the shape moves as Coalesced says, the heap is
     * consistent again, and no allocated payload changes.
     */
    method Coalesce(bp: int) returns (r: int)
      requires CoalesceSafe(Snapshot(), bp)
      modifies mem, `freeListp
      ensures (Snapshot(), r) == CoalesceStep(old(Snapshot()), bp)
    {
      ghost var s0 := Snapshot();
      var prevFtr := mem[bp - DSIZE];
      var hdr := mem[bp - WSIZE];
      var prevBlk := bp - GetSize(prevFtr);
      var nextBlk := bp + GetSize(hdr);
      var prevHdr := mem[prevBlk - WSIZE];
      var prevTag := mem[prevBlk + GetSize(prevHdr) - DSIZE];
      var nextHdr := mem[nextBlk - WSIZE];
      var prevAlloc := GetAlloc(prevTag) == 1 || prevBlk == bp;
      var nextAlloc := GetAlloc(nextHdr) == 1;
      var size := GetSize(hdr);
      assert prevBlk == PrevBlkp(s0.mem, bp) && nextBlk == NextBlkp(s0.mem, bp);
      assert prevAlloc == PrevAllocated(s0.mem, bp) && nextAlloc == NextAllocated(s0.mem, bp);
      assert hdr == Get(s0.mem, Hdrp(bp));
      assert prevHdr == Get(s0.mem, Hdrp(PrevBlkp(s0.mem, bp))) && nextHdr == Get(s0.mem, Hdrp(NextBlkp(s0.mem, bp)));
      if prevAlloc && nextAlloc {
        InsertFirst(bp);
        return bp;
      }
      MergeInRange(s0, bp);
      ghost var (u, r0, total) := Unlink(s0, bp);
      if prevAlloc && !nextAlloc {
        size := size + GetSize(nextHdr);
        assert size == total;
        RemoveBlock(nextBlk);
        r := bp;
        assert Snapshot() == u && r == r0;
      } else if !prevAlloc && nextAlloc {
        size := size + GetSize(prevHdr);
        assert size == total;
        RemoveBlock(prevBlk);
        r := prevBlk;
        assert Snapshot() == u && r == r0;
      } else {
        size := size + GetSize(prevHdr) + GetSize(nextHdr);
        assert size == total;
        r := RemoveNeighbours(bp);
        assert Snapshot() == u && r == r0;
      }
      MergeTags(r, size);
      assert Snapshot() == Retag(u, r0, total);
    }

    /**
     * Case 4 of coalesce (mm.c lines 371-377) up to its tag writes: unlink
     * the left neighbour, then the right one found again from bp's header,
     * then find the left neighbour again from the footer before bp.
     */
    method RemoveNeighbours(bp: int) returns (r: int)
      requires DSIZE <= bp - DSIZE && bp + 2 * DSIZE <= mem.Length
      requires Unlinkable(mem[..], PrevBlkp(mem[..], bp))
      requires BothUnlinkable(Snapshot(), bp)
      modifies mem, `freeListp
      ensures (Snapshot(), r) == UnlinkBoth(old(Snapshot()), bp)
    {
      var prevFtr := mem[bp - DSIZE];
      var pb := bp - GetSize(prevFtr);
      assert pb == PrevBlkp(mem[..], bp);
      RemoveBlock(pb);
      ghost var u1 := Snapshot();
      var hdr := mem[bp - WSIZE];
      var nb := bp + GetSize(hdr);
      assert nb == NextBlkp(u1.mem, bp);
      RemoveBlock(nb);
      ghost var u2 := Snapshot();
      prevFtr := mem[bp - DSIZE];
      r := bp - GetSize(prevFtr);
      assert r == PrevBlkp(u2.mem, bp);
    }

    /**
     * The end of coalesce (mm.c lines 379-383): write the merged block's
     * header, then its footer where the new header says it ends, then put
     * the block first on the free list.
     */
    method MergeTags(r: int, size: int)
      requires DSIZE <= r && r + 2 * DSIZE <= mem.Length && 0 <= freeListp && freeListp + WSIZE < mem.Length
      requires size % DSIZE == 0 && r + size <= mem.Length && 2 * DSIZE <= size
      modifies mem, `freeListp
      ensures Snapshot() == Retag(old(Snapshot()), r, size)
    {
      PutWord(r - WSIZE, Pack(size, 0));
      var hdr := mem[r - WSIZE];
      PackRoundTrip(size, 0);
      PutWord(r + GetSize(hdr) - DSIZE, Pack(size, 0));
      InsertFirst(r);
    }

    /**
     * place (mm.c lines 307-325): when the block is at least a minimum block
     * larger than asize, its front becomes an allocated block of asize bytes
     * and the rest a free block that is coalesced; otherwise the whole block
     * is allocated.  Either way bp leaves the free list (PlaceEffect says
     * what this does to the shape).
     */
    method Place(bp: int, asize: int)
      requires PlaceSafe(Snapshot(), bp, asize)
      modifies mem, `freeListp
      ensures Snapshot() == PlaceStep(old(Snapshot()), bp, asize)
    {
      var csize := GetSize(mem[bp - WSIZE]);
      if csize - asize >= BLOCKSIZE {
        PlaceSplit(bp, asize, csize);
      } else {
        TakeBlock(bp, csize);
      }
    }

    /** The split branch of place (mm.c lines 312-318), csize being the size read from bp's header. */
    method PlaceSplit(bp: int, asize: int, csize: int)
      requires TakeSafe(Snapshot(), bp, asize) && SplitSafe(Snapshot(), bp, asize)
      requires csize == GetSize(Get(mem[..], Hdrp(bp)))
      modifies mem, `freeListp
      ensures Snapshot() == SplitStep(old(Snapshot()), bp, asize)
    {
      var rest := csize - asize;
      ghost var s0 := Snapshot();
      assert rest == Remnant(s0, bp, asize);
      TakeBlock(bp, asize);
      ghost var u := Snapshot();
      SplitSafeAt(s0, bp, asize, rest, u, u, 0);
      var nb := TagRemainder(bp, rest);
      ghost var u5 := Snapshot();
      SplitSafeAt(s0, bp, asize, rest, u, u5, nb);
      SplitStepAt(s0, bp, asize, rest, u, u5, nb);
      var _ := Coalesce(nb);
    }

    /** The first three statements of either branch of place (mm.c lines 312-314 and 320-322). */
    method TakeBlock(bp: int, size: int)
      requires TakeSafe(Snapshot(), bp, size)
      modifies mem, `freeListp
      ensures Snapshot() == TakeFront(old(Snapshot()), bp, size)
    {
      ghost var m0 := mem[..];
      SetTagsInRange(m0, bp, size, 1);
      UnlinkableUnderPut(m0, bp, bp - WSIZE, Pack(size, 1));
      UnlinkableUnderPut(m0[bp - WSIZE := Pack(size, 1)], bp, bp + size - DSIZE, Pack(size, 1));
      WriteTags(bp, size, 1);
      RemoveBlock(bp);
    }

    /** The remainder's tags in the split branch of place (mm.c lines 315-317). */
    method TagRemainder(bp: int, rest: int) returns (nb: int)
      requires RestSafe(Snapshot(), bp, rest)
      modifies mem
      ensures (Snapshot(), nb) == TagRest(old(Snapshot()), bp, rest)
    {
      var hdr := mem[bp - WSIZE];
      nb := bp + GetSize(hdr);
      WriteTags(nb, rest, 0);
    }

    /**
     * extend_heap (mm.c lines 275-298): grow the region by ExtendSize(words)
     * bytes, tag the new block free, write a new epilogue after it, and
     * coalesce; NULL when the region cannot grow (ExtendEffect says what
     * this does to the shape).
     */
    method ExtendHeap(words: nat) returns (bp: int)
      requires ExtendSafe(Snapshot(), words)
      modifies mem, `brk, `freeListp
      ensures (Snapshot(), bp) == ExtendStep(old(Snapshot()), words)
    {
      ghost var s0 := Snapshot();
      var size := ExtendSize(words);
      var p := Sbrk(size);
      if p < 0 {
        return NULL;
      }
      bp := p;
      WriteNewBlock(bp, size);
      assert Snapshot() == Grow(s0, size);
      bp := Coalesce(bp);
    }

    /**
     * The stores of mm_init (mm.c lines 100-107) at heap_listp == p: padding,
     * the prologue block's header, links and footer, the epilogue, and the
     * free-list head set to the prologue, which leaves an empty heap.
     */
    method Prologue(p: int)
      requires p == 0 && brk == INIT_SIZE && INIT_SIZE <= mem.Length && mem[GAP_WORD] == 0
      modifies mem, `freeListp
      ensures Sound(Snapshot(), [], []) && freeListp == PROLOGUE_BP
    {
      PutWord(p, 0);
      PutWord(p + WSIZE, Pack(BLOCKSIZE, 1));
      PutWord(p + DSIZE, 0);
      PutWord(p + WSIZE + DSIZE, 0);
      PutWord(p + BLOCKSIZE, Pack(BLOCKSIZE, 1));
      PutWord(p + WSIZE + BLOCKSIZE, Pack(0, 1));
      freeListp := p + DSIZE;
      assert mem[GAP_WORD] == old(mem[GAP_WORD]);
    }

    /**
     * mm_init (mm.c lines 95-115) on a fresh region: obtain the padding word,
     * the prologue block and the epilogue, then extend the empty heap by one
     * chunk.  0 and a heap holding one free minimum block, the only entry of
     * the free list, when the region has room for both; -1 otherwise.  The
     * result of mem_sbrk is compared with `< 0`, as extend_heap does (see
     * InitGuardMissesFailure for the test as written).
     */
    method Init() returns (r: int)
      requires brk == 0 && ZeroFrom(mem[..], 0)
      modifies mem, `brk, `freeListp, `blocks, `free
      ensures r == 0 || r == -1
      ensures r == 0 <==> mem.Length >= INIT_SIZE + BLOCKSIZE
      ensures r == 0 ==> Valid() && blocks == [Block(FIRST_BP, BLOCKSIZE, false)] && free == [FIRST_BP]
    {
      var p := Sbrk(INIT_SIZE);
      if p < 0 {
        return -1;
      }
      assert mem[GAP_WORD] == 0;
      Prologue(p);
      var words := CHUNKSIZE / WSIZE;
      InitialChunk();
      var bp;
      ghost var c, cf;
      bp, c, cf := GrowBlock(words, [], []);
      if bp == NULL {
        return -1;
      }
      OneFreeBlock(Snapshot(), c, cf);
      blocks, free := c, cf;
      return 0;
    }

    /**
     * mm_malloc (mm.c lines 122-150) on a consistent heap.  A request of 0
     * bytes, or one that neither fits a free block nor fits in the region
     * still unclaimed, returns NULL and changes nothing; otherwise the
     * result is an allocated block of at least AdjustedSize(size) bytes,
     * every block allocated before stays allocated and keeps its payload,
     * and the heap stays consistent.
     */
    method Malloc(size: nat) returns (bp: int)
      requires Valid()
      modifies mem, `brk, `freeListp, `blocks, `free
      ensures Valid()
      ensures bp == NULL <==> size == 0 || NoRoom(old(blocks), old(brk), mem.Length, AdjustedSize(size))
      ensures bp == NULL ==> Snapshot() == old(Snapshot()) && blocks == old(blocks) && free == old(free)
      ensures bp != NULL ==>
                exists k :: 0 <= k < |blocks| && blocks[k].bp == bp && blocks[k].alloc && blocks[k].size >= AdjustedSize(size)
      ensures bp != NULL ==> !IsAllocatedBlock(old(blocks), bp)
      ensures size > 0 && !NoFit(old(blocks), AdjustedSize(size)) ==>
                brk == old(brk) && FirstOnList(old(blocks), old(free), AdjustedSize(size), bp) &&
                PlacedAt(old(blocks), old(free), bp, AdjustedSize(size), blocks, free)
      ensures size > 0 && NoFit(old(blocks), AdjustedSize(size)) && bp != NULL ==>
                brk == old(brk) + AdjustedSize(size) &&
                blocks == GrownPlaced(old(blocks), old(brk), AdjustedSize(size)) &&
                free == GrownPlacedFree(old(blocks), old(free), old(brk), AdjustedSize(size))
      ensures bp != NULL ==> MallocShape(old(blocks), old(free), old(brk), AdjustedSize(size), bp, blocks, free, brk)
      ensures KeepsAllocated(old(blocks), blocks, NULL)
      ensures PayloadsKept(old(mem[..]), mem[..], old(blocks), NULL)
    {
      if size == 0 {
        return NULL;
      }
      ghost var bs', fl', k, fit;
      bp, bs', fl', k, fit := MallocBlock(AdjustedSize(size), blocks, free);
      if bp != NULL {
        MallocShapeIntro(blocks, free, old(brk), AdjustedSize(size), bp, bs', fl', brk, fit);
      }
      SetLayout(bs', fl');
    }

    /**
     * mm_malloc's search and placement (mm.c lines 136-149) for the padded
     * size asize, with both outcomes, fit and miss, summed up as the one
     * MallocShape the callers that move or clear the new block rely on.
     */
    method MallocShaped(asize: int, ghost bs: seq<Block>, ghost fl: seq<int>)
      returns (bp: int, ghost bs': seq<Block>, ghost fl': seq<int>, ghost k: int)
      requires Sound(Snapshot(), bs, fl) && asize % DSIZE == 0 && asize >= BLOCKSIZE
      modifies mem, `brk, `freeListp
      ensures Sound(Snapshot(), bs', fl')
      ensures bp == NULL <==> NoRoom(bs, old(brk), mem.Length, asize)
      ensures bp == NULL ==> Snapshot() == old(Snapshot()) && bs' == bs && fl' == fl
      ensures bp != NULL ==>
                0 <= k < |bs'| && bs'[k].bp == bp && bs'[k].alloc && bs'[k].size >= asize &&
                !IsAllocatedBlock(bs, bp)
      ensures bp != NULL ==> MallocShape(bs, fl, old(brk), asize, bp, bs', fl', brk)
      ensures KeepsAllocated(bs, bs', NULL) && PayloadsKept(old(mem[..]), mem[..], bs, NULL)
    {
      ghost var fit;
      bp, bs', fl', k, fit := MallocBlock(asize, bs, fl);
      if bp != NULL {
        MallocShapeIntro(bs, fl, old(brk), asize, bp, bs', fl', brk, fit);
      }
    }

    /**
     * The search-then-grow core of mm_malloc (mm.c lines 137-149) for a
     * padded size asize: place into the first fit, or else grow the heap and
     * place into the new block; NULL with nothing changed when neither works.
     * fit says whether find_fit found a block: then the heap does not grow
     * and the shape is place's on the first fit; otherwise it grows by
     * exactly asize bytes and the shape is GrownPlaced.
     */
    method MallocBlock(asize: int, ghost bs: seq<Block>, ghost fl: seq<int>)
      returns (bp: int, ghost bs': seq<Block>, ghost fl': seq<int>, ghost k: int, ghost fit: bool)
      requires Sound(Snapshot(), bs, fl) && asize % DSIZE == 0 && asize >= BLOCKSIZE
      modifies mem, `brk, `freeListp
      ensures Sound(Snapshot(), bs', fl')
      ensures bp == NULL <==> NoRoom(bs, old(brk), mem.Length, asize)
      ensures bp == NULL ==> Snapshot() == old(Snapshot()) && bs' == bs && fl' == fl
      ensures bp != NULL ==>
                0 <= k < |bs'| && bs'[k].bp == bp && bs'[k].alloc && bs'[k].size >= asize &&
                !IsAllocatedBlock(bs, bp)
      ensures fit <==> !NoFit(bs, asize)
      ensures fit ==>
                bp != NULL && brk == old(brk) && FirstOnList(bs, fl, asize, bp) && PlacedAt(bs, fl, bp, asize, bs', fl')
      ensures !fit && bp != NULL ==>
                brk == old(brk) + asize &&
                bs' == GrownPlaced(bs, old(brk), asize) && fl' == GrownPlacedFree(bs, fl, old(brk), asize)
      ensures KeepsAllocated(bs, bs', NULL) && PayloadsKept(old(mem[..]), mem[..], bs, NULL)
    {
      bp, k := FitBlock(asize, bs, fl);
      fit := bp != NULL;
      if bp != NULL {
        bs', fl' := PlaceBlock(bp, asize, bs, fl, k);
        return;
      }
      bp, bs', fl', k := GrowAndPlace(asize, bs, fl);
    }

    /**
     * find_fit (mm.c lines 331-341) on a consistent heap of shape bs: NULL
     * exactly when no free block has asize bytes; otherwise the free block
     * k at the result, the first on the free list with at least asize
     * bytes.
     */
    method FitBlock(asize: int, ghost bs: seq<Block>, ghost fl: seq<int>) returns (bp: int, ghost k: int)
      requires Sound(Snapshot(), bs, fl)
      ensures bp == NULL <==> NoFit(bs, asize)
      ensures bp != NULL ==> 0 <= k < |bs| && bs[k].bp == bp && !bs[k].alloc && asize <= bs[k].size
      ensures bp != NULL ==> !IsAllocatedBlock(bs, bp) && FirstOnList(bs, fl, asize, bp)
    {
      WalkableList(mem[..], brk, freeListp, bs, fl);
      FitEffect(mem[..], brk, freeListp, bs, fl, asize);
      bp := FindFit(asize, fl);
      k := 0;
      if bp != NULL {
        k :| 0 <= k < |bs| && bs[k].bp == bp && !bs[k].alloc && asize <= bs[k].size;
        FreeNotAllocated(bs, brk, k);
      }
    }

    /**
     * The no-fit path of mm_malloc (mm.c lines 145-149) on a consistent
     * heap of shape bs: when the region cannot grow by asize bytes, NULL
     * and no change; otherwise the heap grows, the new last block is
     * placed, and the result is block k of the new shape bs', allocated
     * with at least asize bytes, every earlier allocated block and payload
     * kept.
     */
    method GrowAndPlace(asize: int, ghost bs: seq<Block>, ghost fl: seq<int>)
      returns (bp: int, ghost bs': seq<Block>, ghost fl': seq<int>, ghost k: int)
      requires Sound(Snapshot(), bs, fl) && asize % DSIZE == 0 && asize >= BLOCKSIZE
      modifies mem, `brk, `freeListp
      ensures bp == NULL <==> old(brk) + asize > mem.Length
      ensures bp == NULL ==> Snapshot() == old(Snapshot()) && bs' == bs && fl' == fl
      ensures bp != NULL ==>
                Sound(Snapshot(), bs', fl') &&
                0 <= k < |bs'| && bs'[k].bp == bp && bs'[k].alloc && bs'[k].size >= asize &&
                KeepsAllocated(bs, bs', NULL) && PayloadsKept(old(mem[..]), mem[..], bs, NULL)
      ensures bp != NULL ==>
                !IsAllocatedBlock(bs, bp) && brk == old(brk) + asize &&
                bs' == GrownPlaced(bs, old(brk), asize) && fl' == GrownPlacedFree(bs, fl, old(brk), asize)
    {
      var words := Max(asize, CHUNKSIZE) / WSIZE;
      GrowthFitsRequest(asize);
      bs', fl', k := bs, fl, 0;
      ghost var m0 := mem[..];
      ghost var c, cf;
      bp, c, cf := GrowBlock(words, bs, fl);
      if bp == NULL {
        return;
      }
      bs', fl', k := PlaceGrown(bp, asize, bs, fl, c, cf, old(brk), m0);
    }

    /**
     * The place of mm_malloc's no-fit path (mm.c line 148) into the last
     * block of the shape c that extend_heap has grown from bs by asize
     * bytes at brk0.
     */
    method PlaceGrown(bp: int, asize: int, ghost bs: seq<Block>, ghost fl: seq<int>, ghost c: seq<Block>,
                      ghost cf: seq<int>, ghost brk0: int, ghost m0: seq<int>)
      returns (ghost bs': seq<Block>, ghost fl': seq<int>, ghost k: int)
      requires Sound(Snapshot(), c, cf) && Laid(bs, brk0) && asize % DSIZE == 0 && asize >= BLOCKSIZE
      requires var g := Grown(bs, brk0, asize);
               c == Coalesced(g, |bs|) && cf == CoalescedFree(g, fl, |bs|) && |c| - 1 == Lo(g, |bs|)
      requires |c| > 0 && c[|c| - 1].bp == bp && !c[|c| - 1].alloc && c[|c| - 1].size >= asize
      requires KeepsAllocated(bs, c, NULL) && |m0| == mem.Length && PayloadsKept(m0, mem[..], bs, NULL)
      modifies mem, `freeListp
      ensures Sound(Snapshot(), bs', fl')
      ensures 0 <= k < |bs'| && bs'[k].bp == bp && bs'[k].alloc && bs'[k].size >= asize
      ensures KeepsAllocated(bs, bs', NULL) && PayloadsKept(m0, mem[..], bs, NULL) && !IsAllocatedBlock(bs, bp)
      ensures bs' == GrownPlaced(bs, brk0, asize) && fl' == GrownPlacedFree(bs, fl, brk0, asize)
    {
      ghost var m1 := mem[..];
      k := |c| - 1;
      FreshBlock(bs, c, brk0, brk, k);
      GrownPlacedIs(bs, fl, brk0, asize, c, cf, k);
      bs', fl' := PlaceBlock(bp, asize, c, cf, k);
      KeptThrough(bs, c, bs', brk0, brk, m0, m1, mem[..]);
    }

    /**
     * place (mm.c lines 307-325) on block k of the shape bs, a free block
     * of at least asize bytes: the shape becomes Placed, the list
     * PlacedFree, block k is allocated with at least asize bytes, and
     * every allocated block and payload is kept.
     */
    method PlaceBlock(bp: int, asize: int, ghost bs: seq<Block>, ghost fl: seq<int>, ghost k: int)
      returns (ghost p: seq<Block>, ghost pf: seq<int>)
      requires Sound(Snapshot(), bs, fl) && 0 <= k < |bs| && bs[k].bp == bp && !bs[k].alloc
      requires asize % DSIZE == 0 && BLOCKSIZE <= asize <= bs[k].size
      modifies mem, `freeListp
      ensures p == Placed(bs, k, asize) && pf == PlacedFree(bs, fl, k, asize)
      ensures Sound(Snapshot(), p, pf)
      ensures k < |p| && p[k].bp == bp && p[k].alloc && p[k].size >= asize && KeepsAllocated(bs, p, NULL)
      ensures PayloadsKept(old(mem[..]), mem[..], bs, NULL)
    {
      ghost var s0 := Snapshot();
      p, pf := Placed(bs, k, asize), PlacedFree(bs, fl, k, asize);
      PlaceSound(bs, s0.brk, fl, k, asize);
      PlaceEffect(s0, bs, fl, k, asize);
      Place(bp, asize);
    }

    /**
     * extend_heap (mm.c lines 275-298) on a consistent heap of shape bs:
     * when the region cannot grow by ExtendSize(words) bytes, NULL and no
     * change; otherwise the grown shape bs + [the new block] is coalesced
     * at the new block into the shape c (ExtendEffect gives it as
     * Coalesced), whose last block the result points to, free and holding
     * at least the bytes added, with every allocated block and payload
     * kept.
     */
    method GrowBlock(words: nat, ghost bs: seq<Block>, ghost fl: seq<int>)
      returns (bp: int, ghost c: seq<Block>, ghost cf: seq<int>)
      requires Sound(Snapshot(), bs, fl)
      modifies mem, `brk, `freeListp
      ensures bp == NULL <==> old(brk) + ExtendSize(words) > mem.Length
      ensures bp == NULL ==> Snapshot() == old(Snapshot())
      ensures bp != NULL ==>
                brk == old(brk) + ExtendSize(words) && Sound(Snapshot(), c, cf) &&
                |c| > 0 && c[|c| - 1].bp == bp && !c[|c| - 1].alloc && c[|c| - 1].size >= ExtendSize(words) &&
                KeepsAllocated(bs, c, NULL) && PayloadsKept(old(mem[..]), mem[..], bs, NULL)
      ensures var g := Grown(bs, old(brk), ExtendSize(words));
              c == Coalesced(g, |bs|) && cf == CoalescedFree(g, fl, |bs|) && |c| - 1 == Lo(g, |bs|)
    {
      ghost var s0 := Snapshot();
      ghost var g := Grown(bs, s0.brk, ExtendSize(words));
      c, cf := Coalesced(g, |bs|), CoalescedFree(g, fl, |bs|);
      GrownTail(bs, s0.brk, ExtendSize(words));
      ExtendEffect(s0, bs, fl, words);
      bp := ExtendHeap(words);
    }

    /**
     * mm_realloc (mm.c lines 178-227) on a consistent heap, with the padded
     * size computed without wrap-around (see AdjustedSize).  A request of 0
     * bytes frees ptr and gives NULL; a NULL ptr is mm_malloc, which for 0
     * bytes changes nothing and otherwise leaves its MallocShape.  Otherwise the
     * block stays where it is when it is already large enough (and is cut
     * down in place when more than a minimum block would be left over), and
     * is moved to a fresh block when it is too small; NULL, with nothing
     * changed, when no block can be found for it.  The first
     * min(size, old payload) bytes of the payload are kept, and so is every
     * other allocated block with its payload.  For a non-NULL ptr, k is the
     * index of its block in the old shape.
     */
    method Realloc(ptr: int, size: nat) returns (r: int, ghost k: int)
      requires Valid() && (ptr == NULL || IsAllocatedBlock(blocks, ptr))
      modifies mem, `brk, `freeListp, `blocks, `free
      ensures Valid()
      ensures ptr != NULL ==> k == AllocatedAt(old(blocks), ptr)
      ensures r == NULL <==>
                size == 0 ||
                ((ptr == NULL || AdjustedSize(size) > old(blocks)[k].size) &&
                 NoRoom(old(blocks), old(brk), mem.Length, AdjustedSize(size)))
      ensures size == 0 && ptr != NULL ==>
                !IsAllocatedBlock(blocks, ptr) &&
                blocks == Freed(old(blocks), k) &&
                free == FreedFree(old(blocks), old(free), k)
      ensures size > 0 && r == NULL ==> Snapshot() == old(Snapshot()) && blocks == old(blocks) && free == old(free)
      ensures r != NULL ==>
                exists j :: 0 <= j < |blocks| && blocks[j].bp == r && blocks[j].alloc && blocks[j].size >= AdjustedSize(size)
      ensures r != NULL && ptr != NULL ==>
                (r == ptr <==> AdjustedSize(size) <= old(blocks)[k].size) &&
                Moved(old(mem[..]), mem[..], ptr, r, Min(size, old(blocks)[k].size - DSIZE))
      ensures r != NULL && r != ptr ==>
                !IsAllocatedBlock(old(blocks), r) && (ptr == NULL || !IsAllocatedBlock(blocks, ptr))
      ensures ptr == NULL && size == 0 ==> Snapshot() == old(Snapshot()) && blocks == old(blocks) && free == old(free)
      ensures ptr == NULL && r != NULL ==>
                MallocShape(old(blocks), old(free), old(brk), AdjustedSize(size), r, blocks, free, brk)
      ensures size > 0 && ptr != NULL && r == ptr && old(blocks)[k].size - AdjustedSize(size) <= BLOCKSIZE ==>
                Snapshot() == old(Snapshot()) && blocks == old(blocks) && free == old(free)
      ensures size > 0 && ptr != NULL && r == ptr && old(blocks)[k].size - AdjustedSize(size) > BLOCKSIZE ==>
                brk == old(brk) && blocks == Shrunk(old(blocks), k, AdjustedSize(size)) &&
                free == ShrunkFree(old(blocks), old(free), k, AdjustedSize(size))
      ensures KeepsAllocated(old(blocks), blocks, ptr)
      ensures PayloadsKept(old(mem[..]), mem[..], old(blocks), ptr)
    {
      k := if ptr == NULL then -1 else AllocatedAt(blocks, ptr);
      if size == 0 {
        Free(ptr);
        r := NULL;
      } else if ptr == NULL {
        r := Malloc(size);
      } else {
        ghost var m0 := mem[..];
        r, k := Resize(ptr, size);
        assert r != NULL ==> Moved(m0, mem[..], ptr, r, Min(size, old(blocks)[k].size - DSIZE));
      }
    }

    /**
     * mm_realloc (mm.c lines 195-226) on a consistent heap for an allocated
     * ptr and size > 0; k is the index of ptr's block in the old shape.  A
     * block kept whole leaves the heap as it was; one cut down in place
     * leaves the Shrunk shape.
     */
    method Resize(ptr: int, size: nat) returns (r: int, ghost k: int)
      requires Valid() && IsAllocatedBlock(blocks, ptr) && size > 0
      modifies mem, `brk, `freeListp, `blocks, `free
      ensures Valid()
      ensures k == AllocatedAt(old(blocks), ptr)
      ensures r == NULL <==>
                AdjustedSize(size) > old(blocks)[k].size && NoRoom(old(blocks), old(brk), mem.Length, AdjustedSize(size))
      ensures r == NULL ==> Snapshot() == old(Snapshot()) && blocks == old(blocks) && free == old(free)
      ensures r != NULL ==>
                (exists j :: 0 <= j < |blocks| && blocks[j].bp == r && blocks[j].alloc && blocks[j].size >= AdjustedSize(size)) &&
                (r == ptr <==> AdjustedSize(size) <= old(blocks)[k].size) &&
                Moved(old(mem[..]), mem[..], ptr, r, Min(size, old(blocks)[k].size - DSIZE))
      ensures r != NULL && r != ptr ==> !IsAllocatedBlock(old(blocks), r) && !IsAllocatedBlock(blocks, ptr)
      ensures r == ptr && old(blocks)[k].size - AdjustedSize(size) <= BLOCKSIZE ==>
                Snapshot() == old(Snapshot()) && blocks == old(blocks) && free == old(free)
      ensures r == ptr && old(blocks)[k].size - AdjustedSize(size) > BLOCKSIZE ==>
                brk == old(brk) && blocks == Shrunk(old(blocks), k, AdjustedSize(size)) &&
                free == ShrunkFree(old(blocks), old(free), k, AdjustedSize(size))
      ensures KeepsAllocated(old(blocks), blocks, ptr)
      ensures PayloadsKept(old(mem[..]), mem[..], old(blocks), ptr)
    {
      k := AllocatedAt(blocks, ptr);
      ghost var bs', fl';
      r, bs', fl' := ResizeBlock(ptr, size, blocks, free, k);
      ghost var m1 := mem[..];
      SetLayout(bs', fl');
      assert mem[..] == m1;
    }

    /** Records the block sequence and free list that describe the heap now. */
    ghost method SetLayout(bs: seq<Block>, fl: seq<int>)
      modifies `blocks, `free
      ensures blocks == bs && free == fl
      ensures mem[..] == old(mem[..]) && Snapshot() == old(Snapshot())
    {
      blocks, free := bs, fl;
    }

    /**
     * mm_realloc (mm.c lines 195-226) for allocated block k at ptr and a
     * request of size > 0 bytes: keep the block when it is large enough,
     * unchanged when at most a minimum block would be left over and cut down
     * to the Shrunk shape otherwise, and move it when it is too small.
     */
    method ResizeBlock(ptr: int, size: nat, ghost bs: seq<Block>, ghost fl: seq<int>, ghost k: int)
      returns (r: int, ghost bs': seq<Block>, ghost fl': seq<int>)
      requires Sound(Snapshot(), bs, fl) && 0 <= k < |bs| && bs[k].bp == ptr && bs[k].alloc && size > 0
      modifies mem, `brk, `freeListp
      ensures Sound(Snapshot(), bs', fl')
      ensures r == NULL <==> AdjustedSize(size) > bs[k].size && NoRoom(bs, old(brk), mem.Length, AdjustedSize(size))
      ensures r == NULL ==> Snapshot() == old(Snapshot()) && bs' == bs && fl' == fl
      ensures r != NULL ==>
                (r == ptr <==> AdjustedSize(size) <= bs[k].size) &&
                (exists j :: 0 <= j < |bs'| && bs'[j].bp == r && bs'[j].alloc && bs'[j].size >= AdjustedSize(size)) &&
                Moved(old(mem[..]), mem[..], ptr, r, Min(size, bs[k].size - DSIZE))
      ensures r != NULL && r != ptr ==> !IsAllocatedBlock(bs, r) && !IsAllocatedBlock(bs', ptr)
      ensures r == ptr && bs[k].size - AdjustedSize(size) <= BLOCKSIZE ==>
                Snapshot() == old(Snapshot()) && bs' == bs && fl' == fl
      ensures r == ptr && bs[k].size - AdjustedSize(size) > BLOCKSIZE ==>
                brk == old(brk) && bs' == Shrunk(bs, k, AdjustedSize(size)) && fl' == ShrunkFree(bs, fl, k, AdjustedSize(size))
      ensures KeepsAllocated(bs, bs', ptr)
      ensures PayloadsKept(old(mem[..]), mem[..], bs, ptr)
    {
      var asize := AdjustedSize(size);
      var oldsize := GetSize(mem[ptr - WSIZE]);
      PackRoundTrip(bs[k].size, 1);
      assert oldsize == bs[k].size;
      if asize == oldsize || (asize <= oldsize && oldsize - asize <= BLOCKSIZE) {
        bs', fl' := bs, fl;
        KeptInPlace(mem[..], mem[..], bs[k], Min(size, oldsize - DSIZE));
        r := ptr;
        return;
      }
      if asize <= oldsize {
        ghost var m0 := mem[..];
        bs', fl' := ShrinkBlock(ptr, asize, oldsize, bs, fl, k);
        KeptInPlace(m0, mem[..], Block(ptr, asize, true), Min(size, oldsize - DSIZE));
        r := ptr;
        return;
      }
      r, bs', fl' := MoveBlock(ptr, size, oldsize, bs, fl, k);
    }

    /**
     * The moving path of mm_realloc (mm.c lines 210-226) for allocated block
     * ka at ptr: allocate a block for size bytes; NULL with nothing changed
     * when there is none, and otherwise copy min(size, oldsize) bytes from
     * ptr into it, free block ka and return the new block, leaving the
     * shape MoveShape.
     */
    method MoveBlock(ptr: int, size: nat, oldsize: int, ghost bs: seq<Block>, ghost fl: seq<int>, ghost ka: int)
      returns (r: int, ghost bs': seq<Block>, ghost fl': seq<int>)
      requires Sound(Snapshot(), bs, fl) && 0 <= ka < |bs| && bs[ka].bp == ptr && bs[ka].alloc
      requires bs[ka].size == oldsize && size > 0
      modifies mem, `brk, `freeListp
      ensures Sound(Snapshot(), bs', fl')
      ensures r == NULL <==> NoRoom(bs, old(brk), mem.Length, AdjustedSize(size))
      ensures r == NULL ==> Snapshot() == old(Snapshot()) && bs' == bs && fl' == fl
      ensures r != NULL ==> r != ptr && !IsAllocatedBlock(bs, r) && !IsAllocatedBlock(bs', ptr)
      ensures r != NULL ==>
                exists k :: 0 <= k < |bs'| && bs'[k].bp == r && bs'[k].alloc && bs'[k].size >= AdjustedSize(size)
      ensures r != NULL ==> Moved(old(mem[..]), mem[..], ptr, r, Min(size, oldsize - DSIZE))
      ensures r != NULL ==> MoveShape(bs, fl, old(brk), AdjustedSize(size), ptr, r, bs', fl', brk)
      ensures KeepsAllocated(bs, bs', ptr)
      ensures PayloadsKept(old(mem[..]), mem[..], bs, ptr)
    {
      ghost var m0 := mem[..];
      Within(bs, brk, ka);
      ghost var b, bfl, k;
      r, b, bfl, k := MallocShaped(AdjustedSize(size), bs, fl);
      if r == NULL {
        bs', fl' := bs, fl;
        return;
      }
      assert bs[ka] in b;
      var n := if size < oldsize then size else oldsize;
      bs', fl' := MoveInto(ptr, r, n, Min(size, oldsize - DSIZE), bs, b, bfl, ka, k, old(brk), m0, fl, AdjustedSize(size));
    }

    /**
     * The copy and free of MoveBlock once mm_malloc has returned the block k
     * of b at r, in the shape MallocShape gives for the request asize made
     * on the earlier shape bs, fl0: allocated block ka of bs (at ptr) is
     * copied into it and freed, which leaves the moving path's MoveShape.
     */
    method MoveInto(ptr: int, r: int, n: nat, ghost len: int, ghost bs: seq<Block>, ghost b: seq<Block>,
                    ghost bfl: seq<int>, ghost ka: int, ghost k: int, ghost brk0: int, ghost m0: seq<int>,
                    ghost fl0: seq<int>, ghost asize: int)
      returns (ghost bs': seq<Block>, ghost fl': seq<int>)
      requires Sound(Snapshot(), b, bfl) && Laid(bs, brk0) && KeepsAllocated(bs, b, NULL)
      requires 0 <= ka < |bs| && bs[ka].bp == ptr && bs[ka].alloc && bs[ka] in b && !IsAllocatedBlock(bs, r)
      requires 0 <= k < |b| && b[k].bp == r && b[k].alloc && r + n <= Footer(b[k])
      requires n <= bs[ka].size && len <= n && len <= bs[ka].size - DSIZE
      requires |m0| == mem.Length && PayloadsKept(m0, mem[..], bs, NULL)
      requires MallocShape(bs, fl0, brk0, asize, r, b, bfl, brk)
      modifies mem, `freeListp
      ensures Sound(Snapshot(), bs', fl') && !IsAllocatedBlock(bs', ptr) && b[k] in bs'
      ensures KeepsAllocated(bs, bs', ptr) && PayloadsKept(m0, mem[..], bs, ptr) && Moved(m0, mem[..], ptr, r, len)
      ensures MoveShape(bs, fl0, brk0, asize, ptr, r, bs', fl', brk)
    {
      ghost var m1 := mem[..];
      ghost var i :| 0 <= i < |b| && b[i] == bs[ka];
      bs', fl' := CopyAndFree(ptr, r, n, b, bfl, i, k, bs, fl0, brk0, asize);
      MoveKept(bs, b, brk0, bs[ka], b[k], n, len, m0, m1, mem[..]);
      KeepsAllocatedThen(bs, b, bs', brk0, ptr);
    }

    /**
     * The end of mm_realloc's moving path (mm.c lines 220-224): copy n bytes
     * from allocated block i (at ptr) into allocated block j (at r), then
     * free block i, which leaves mm_free's shape Freed.  When bs, fl is what
     * mm_malloc made of bs0, fl0, the result is the moving path's MoveShape.
     */
    method CopyAndFree(ptr: int, r: int, n: nat, ghost bs: seq<Block>, ghost fl: seq<int>, ghost i: int, ghost j: int,
                       ghost bs0: seq<Block>, ghost fl0: seq<int>, ghost brk0: int, ghost asize: int)
      returns (ghost bs': seq<Block>, ghost fl': seq<int>)
      requires Sound(Snapshot(), bs, fl) && 0 <= i < |bs| && 0 <= j < |bs| && i != j
      requires bs[i].bp == ptr && bs[i].alloc && bs[j].bp == r && bs[j].alloc
      requires n <= bs[i].size && r + n <= Footer(bs[j])
      requires MallocShape(bs0, fl0, brk0, asize, r, bs, fl, brk)
      modifies mem, `freeListp
      ensures Sound(Snapshot(), bs', fl')
      ensures !IsAllocatedBlock(bs', ptr) && KeepsAllocated(bs, bs', ptr)
      ensures bs' == Freed(bs, i) && fl' == FreedFree(bs, fl, i)
      ensures MoveShape(bs0, fl0, brk0, asize, ptr, r, bs', fl', brk)
      ensures Moved(old(mem[..]), mem[..], ptr, r, n) && OthersKept(old(mem[..]), mem[..], bs, ptr, r)
    {
      ghost var m1 := mem[..];
      Disjoint(bs, brk, i, j);
      Within(bs, brk, i);
      CopyInto(r, ptr, n, bs, fl, j);
      ghost var m2 := mem[..];
      bs', fl' := FreeBlock(ptr, bs, fl, i, NULL);
      CopyFreeKept(bs, bs[i], bs[j], n, m1, m2, mem[..]);
      MoveShapeIntro(bs0, fl0, brk0, asize, ptr, r, bs, fl, brk, i);
    }

    /**
     * The stores of mm_realloc's in-place shrink (mm.c lines 205-207): the
     * header and footer of the kept front of asize bytes, then the header of
     * the remainder found through NEXT_BLKP, all marked allocated.
     */
    method ShrinkTagsInPlace(ptr: int, asize: int, oldsize: int, ghost bs: seq<Block>, ghost k: int)
      requires Sized(bs) && 0 <= k < |bs| && bs[k].bp == ptr && bs[k].size == oldsize
      requires 0 <= Header(bs[k]) && ptr + asize < mem.Length && asize % DSIZE == 0 && asize >= DSIZE
      modifies mem
      ensures mem[..] == ShrunkMem(old(mem[..]), bs, k, asize)
    {
      SetTagsInRange(mem[..], ptr, asize, 1);
      WriteTags(ptr, asize, 1);
      var hdr := mem[ptr - WSIZE];
      PackRoundTrip(asize, 1);
      PutWord(ptr + GetSize(hdr) - WSIZE, Pack(oldsize - asize, 1));
    }

    /** The stores of the in-place shrink leave the heap consistent with the split shape. */
    method ShrinkFront(ptr: int, asize: int, oldsize: int, ghost bs: seq<Block>, ghost fl: seq<int>, ghost k: int)
      requires Sound(Snapshot(), bs, fl) && 0 <= k < |bs| && bs[k].alloc && bs[k].bp == ptr
      requires bs[k].size == oldsize && asize % DSIZE == 0 && asize >= BLOCKSIZE && oldsize - asize > BLOCKSIZE
      modifies mem
      ensures Consistent(mem[..], brk, freeListp, Split(bs, k, asize, true), fl, NULL, ptr + asize)
      ensures PayloadsKept(old(mem[..]), mem[..], bs, ptr)
      ensures KeepsPayload(old(mem[..]), mem[..], Block(ptr, asize, true))
    {
      ShrinkEffect(Snapshot(), bs, fl, k, asize);
      ShrinkTagsInPlace(ptr, asize, oldsize, bs, k);
    }

    /**
     * mm_realloc shrinking allocated block k in place to asize bytes when
     * more than a minimum block would be left over: the front stays
     * allocated at ptr with its payload, the remainder is freed (and merged
     * with a free right neighbour), and every other allocated block and its
     * payload are kept.
     */
    method ShrinkBlock(ptr: int, asize: int, oldsize: int, ghost bs: seq<Block>, ghost fl: seq<int>, ghost k: int)
      returns (ghost bs': seq<Block>, ghost fl': seq<int>)
      requires Sound(Snapshot(), bs, fl) && 0 <= k < |bs| && bs[k].alloc && bs[k].bp == ptr
      requires bs[k].size == oldsize && asize % DSIZE == 0 && asize >= BLOCKSIZE && oldsize - asize > BLOCKSIZE
      modifies mem, `freeListp
      ensures bs' == Shrunk(bs, k, asize) && fl' == ShrunkFree(bs, fl, k, asize)
      ensures Sound(Snapshot(), bs', fl')
      ensures Block(ptr, asize, true) in bs' && KeepsAllocated(bs, bs', ptr)
      ensures CoveredByFree(bs', Block(ptr + asize, oldsize - asize, true))
      ensures PayloadsKept(old(mem[..]), mem[..], bs, ptr)
      ensures KeepsPayload(old(mem[..]), mem[..], Block(ptr, asize, true))
    {
      ghost var m0 := mem[..];
      ShrinkFront(ptr, asize, oldsize, bs, fl, k);
      ghost var m1 := mem[..];
      ghost var s := Split(bs, k, asize, true);
      assert s[k + 1] == Block(ptr + asize, oldsize - asize, true);
      bs', fl' := FreeBlock(ptr + asize, s, fl, k + 1, ptr + asize);
      ShrunkIsFreed(bs, fl, k, asize);
      ShrinkThenFree(bs, fl, bs', brk, k, asize, m0, m1, mem[..]);
    }

    /**
     * memcpy(dst, src, n) as mm_realloc uses it (mm.c line 220), one cell at
     * a time, into the payload of allocated block j from a range that does
     * not overlap the destination.
     */
    method CopyInto(dst: int, src: int, n: nat, ghost bs: seq<Block>, ghost fl: seq<int>, ghost j: int)
      requires Sound(Snapshot(), bs, fl) && 0 <= j < |bs| && bs[j].alloc && bs[j].bp == dst && dst + n <= Footer(bs[j])
      requires 0 <= src && src + n <= mem.Length && (src + n <= dst || dst + n <= src)
      modifies mem
      ensures Sound(Snapshot(), bs, fl)
      ensures Moved(old(mem[..]), mem[..], src, dst, n)
      ensures PayloadsKept(old(mem[..]), mem[..], bs, dst)
    {
      ghost var m0 := mem[..];
      var i := 0;
      while i < n
        invariant 0 <= i <= n
        invariant Sound(Snapshot(), bs, fl) && Copying(m0, mem[..], bs, src, dst, n, i)
      {
        ghost var m1 := mem[..];
        StorePayload(dst + i, mem[src + i], bs, fl, j);
        CopyStep(m0, m1, mem[..], bs, src, dst, n, i);
        i := i + 1;
      }
    }

    /** One store of memcpy into the payload of allocated block j. */
    method StorePayload(c: int, v: int, ghost bs: seq<Block>, ghost fl: seq<int>, ghost j: int)
      requires Sound(Snapshot(), bs, fl) && 0 <= j < |bs| && bs[j].alloc && bs[j].bp <= c < Footer(bs[j])
      modifies mem
      ensures Sound(Snapshot(), bs, fl) && mem[..] == old(mem[..])[c := v]
      ensures PayloadsKept(old(mem[..]), mem[..], bs, bs[j].bp)
    {
      PayloadWrite(Snapshot(), bs, fl, j, c, v);
      mem[c] := v;
      assert Snapshot() == old(Snapshot()).(mem := old(mem[..])[c := v]);
    }

    /**
     * mm_calloc (mm.c lines 229-241): mm_malloc of nmemb * size bytes (taken
     * modulo 2^64, as size_t arithmetic does), then every one of those bytes
     * of the new block cleared.  The shape and the break are mm_malloc's
     * MallocShape.
     */
    method Calloc(nmemb: nat, size: nat) returns (r: int)
      requires Valid()
      modifies mem, `brk, `freeListp, `blocks, `free
      ensures Valid()
      ensures r == NULL <==>
                CallocBytes(nmemb, size) == 0 ||
                NoRoom(old(blocks), old(brk), mem.Length, AdjustedSize(CallocBytes(nmemb, size)))
      ensures r == NULL ==> Snapshot() == old(Snapshot()) && blocks == old(blocks) && free == old(free)
      ensures r != NULL ==>
                (exists k :: 0 <= k < |blocks| && blocks[k].bp == r && blocks[k].alloc &&
                             blocks[k].size >= AdjustedSize(CallocBytes(nmemb, size))) &&
                !IsAllocatedBlock(old(blocks), r) && Zeroed(mem[..], r, CallocBytes(nmemb, size))
      ensures r != NULL ==>
                MallocShape(old(blocks), old(free), old(brk), AdjustedSize(CallocBytes(nmemb, size)), r, blocks, free, brk)
      ensures KeepsAllocated(old(blocks), blocks, NULL)
      ensures PayloadsKept(old(mem[..]), mem[..], old(blocks), NULL)
    {
      var n := CallocBytes(nmemb, size);
      if n == 0 {
        return NULL;
      }
      ghost var bs', fl';
      r, bs', fl' := CallocBlock(n, blocks, free);
      SetLayout(bs', fl');
    }

    /** mm_malloc then bzero of n > 0 bytes, on a consistent heap of shape bs. */
    method CallocBlock(n: nat, ghost bs: seq<Block>, ghost fl: seq<int>)
      returns (r: int, ghost bs': seq<Block>, ghost fl': seq<int>)
      requires Sound(Snapshot(), bs, fl) && n > 0
      modifies mem, `brk, `freeListp
      ensures Sound(Snapshot(), bs', fl')
      ensures r == NULL <==> NoRoom(bs, old(brk), mem.Length, AdjustedSize(n))
      ensures r == NULL ==> Snapshot() == old(Snapshot()) && bs' == bs && fl' == fl
      ensures r != NULL ==>
                (exists k :: 0 <= k < |bs'| && bs'[k].bp == r && bs'[k].alloc && bs'[k].size >= AdjustedSize(n)) &&
                !IsAllocatedBlock(bs, r) && Zeroed(mem[..], r, n)
      ensures r != NULL ==> MallocShape(bs, fl, old(brk), AdjustedSize(n), r, bs', fl', brk)
      ensures KeepsAllocated(bs, bs', NULL) && PayloadsKept(old(mem[..]), mem[..], bs, NULL)
    {
      ghost var m0 := mem[..];
      ghost var k;
      r, bs', fl', k := MallocShaped(AdjustedSize(n), bs, fl);
      if r == NULL {
        return;
      }
      ghost var m1 := mem[..];
      ZeroFill(r, n, bs', fl', k);
      FreshKept(bs, bs', old(brk), r, m0, m1, mem[..]);
    }

    /** bzero (mm.c line 236) of the first n bytes of the payload of allocated block j at dst. */
    method ZeroFill(dst: int, n: nat, ghost bs: seq<Block>, ghost fl: seq<int>, ghost j: int)
      requires Sound(Snapshot(), bs, fl) && 0 <= j < |bs| && bs[j].alloc && bs[j].bp == dst && dst + n <= Footer(bs[j])
      modifies mem
      ensures Sound(Snapshot(), bs, fl)
      ensures Zeroed(mem[..], dst, n)
      ensures PayloadsKept(old(mem[..]), mem[..], bs, dst)
    {
      ghost var m0 := mem[..];
      var i := 0;
      while i < n
        invariant 0 <= i <= n
        invariant Sound(Snapshot(), bs, fl) && Zeroing(m0, mem[..], bs, dst, i)
      {
        ghost var m1 := mem[..];
        StorePayload(dst + i, 0, bs, fl, j);
        ZeroStep(m0, m1, mem[..], bs, dst, i);
        i := i + 1;
      }
    }

    /**
     * mm_free (mm.c lines 157-171) on a consistent heap: nothing for NULL;
     * otherwise the allocated block at bp is no longer allocated and lies
     * inside a free block, every other allocated block survives with its
     * payload, and the heap stays consistent (FreeEffect gives the exact
     * shape, Coalesced(Cleared(...))).
     */
    method Free(bp: int)
      requires Valid() && (bp == NULL || IsAllocatedBlock(blocks, bp))
      modifies mem, `freeListp, `blocks, `free
      ensures Valid()
      ensures bp == NULL ==> Snapshot() == old(Snapshot()) && blocks == old(blocks) && free == old(free) && mem[..] == old(mem[..])
      ensures bp != NULL ==>
                blocks == Freed(old(blocks), AllocatedAt(old(blocks), bp)) &&
                free == FreedFree(old(blocks), old(free), AllocatedAt(old(blocks), bp))
      ensures bp != NULL ==>
                KeepsAllocated(old(blocks), blocks, bp) && !IsAllocatedBlock(blocks, bp) &&
                CoveredByFree(blocks, old(blocks)[AllocatedAt(old(blocks), bp)])
      ensures PayloadsKept(old(mem[..]), mem[..], old(blocks), bp)
    {
      if bp == NULL {
        return;
      }
      ghost var k := AllocatedAt(blocks, bp);
      ghost var bs', fl' := FreeBlock(bp, blocks, free, k, NULL);
      SetLayout(bs', fl');
    }

    /**
     * The statements of mm_free after its NULL test (mm.c lines 161-169),
     * freeing block k of the shape bs (whose footer may be the stale one,
     * exempt): the heap is consistent with a new shape bs' in which bp is
     * no longer allocated and lies inside a free block, and every other
     * allocated block survives with its payload.
     */
    method FreeBlock(bp: int, ghost bs: seq<Block>, ghost fl: seq<int>, ghost k: int, ghost exempt: int)
      returns (ghost bs': seq<Block>, ghost fl': seq<int>)
      requires Consistent(mem[..], brk, freeListp, bs, fl, NULL, exempt)
      requires 0 <= k < |bs| && bs[k].alloc && bs[k].bp == bp && (exempt == NULL || exempt == bp)
      modifies mem, `freeListp
      ensures bs' == Freed(bs, k) && fl' == FreedFree(bs, fl, k)
      ensures Sound(Snapshot(), bs', fl')
      ensures KeepsAllocated(bs, bs', bp) && !IsAllocatedBlock(bs', bp) && CoveredByFree(bs', bs[k])
      ensures PayloadsKept(old(mem[..]), mem[..], bs, bp)
    {
      bs', fl' := Freed(bs, k), FreedFree(bs, fl, k);
      FreedShape(bs, brk, k);
      FreeEffect(Snapshot(), bs, fl, k, exempt);
      ClearAndCoalesce(bp);
    }

    /** mm.c lines 161-169 word by word, on a heap where they stay in the region. */
    method ClearAndCoalesce(bp: int)
      requires bp != NULL && FreeSafe(Snapshot(), bp)
      modifies mem, `freeListp
      ensures Snapshot() == FreeStep(old(Snapshot()), bp)
    {
      ghost var s0 := Snapshot();
      var size := GetSize(mem[bp - WSIZE]);
      assert size == GetSize(Get(s0.mem, Hdrp(bp)));
      WriteTags(bp, size, 0);
      assert Snapshot() == ClearTags(s0, bp);
      var _ := Coalesce(bp);
    }

    /**
     * `PUT(HDRP(bp), PACK(size, alloc)); PUT(FTRP(bp), PACK(size, alloc))`:
     * the header, then the footer found through the header just written.
     */
    method WriteTags(bp: int, size: int, alloc: int)
      requires WSIZE <= bp && size % DSIZE == 0 && DSIZE <= size && bp + size <= mem.Length && 0 <= alloc <= 1
      modifies mem
      ensures mem[..] == SetTags(old(mem[..]), bp, size, alloc)
    {
      PutWord(bp - WSIZE, Pack(size, alloc));
      var hdr := mem[bp - WSIZE];
      PackRoundTrip(size, alloc);
      PutWord(bp + GetSize(hdr) - DSIZE, Pack(size, alloc));
    }

    /**
     * The stores of extend_heap (mm.c lines 290-292): the new block's header
     * and footer marked free, then the new epilogue header found through
     * NEXT_BLKP.
     */
    method WriteNewBlock(bp: int, size: int)
      requires WSIZE <= bp && size % DSIZE == 0 && DSIZE <= size && bp + size <= mem.Length
      modifies mem
      ensures mem[..] == NewBlockTags(old(mem[..]), bp, size)
    {
      NewBlockTagsInRange(mem[..], bp, size);
      SetTagsInRange(mem[..], bp, size, 0);
      WriteTags(bp, size, 0);
      var hdr := mem[bp - WSIZE];
      PackRoundTrip(size, 0);
      PutWord(bp + GetSize(hdr) - WSIZE, Pack(0, 1));
    }
  }
}
