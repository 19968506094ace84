/*
 * The routines of mm.c as functions from the allocator's state before a
 * call to its state after it, read off the source statement by statement
 * with the memory macros of Blocks.  The methods of Allocator are proved to
 * compute exactly these; the lemmas of Effects say what they do to the
 * abstract shape.
 */
module Routines {
  import opened Layout
  import opened Blocks
  import opened FreeList
  import opened Transitions

  /** What the routines read and change: the region, its break (mem_sbrk's), and free_listp. */
  datatype State = State(mem: seq<int>, brk: int, head: int)

  /** Store a free-list link into the 8-byte slot at p: the offset in its low word, zero in its high word. */
  function Link(m: seq<int>, p: int, v: int): seq<int>
  {
    Put(Put(m, p, v), p + WSIZE, 0)
  }

  /** The cells remove_block reads and writes for bp lie in the region, and bp's predecessor's slot is apart from bp's. */
  predicate Unlinkable(m: seq<int>, bp: int)
  {
    0 <= bp && bp + DSIZE + WSIZE < |m| &&
    (PrevFblkp(m, bp) != NULL ==>
       0 <= PrevFblkp(m, bp) + DSIZE && PrevFblkp(m, bp) + DSIZE + WSIZE < |m| &&
       (PrevFblkp(m, bp) + 2 * DSIZE <= bp || bp + 2 * DSIZE <= PrevFblkp(m, bp))) &&
    0 <= NextFblkp(m, bp) && NextFblkp(m, bp) + WSIZE < |m|
  }

  /** remove_block (mm.c lines 421-428). */
  function RemoveLinks(s: State, bp: int): (s': State)
    ensures |s'.mem| == |s.mem| && s'.brk == s.brk
  {
    var m1 := if PrevFblkp(s.mem, bp) != NULL then Link(s.mem, PrevFblkp(s.mem, bp) + DSIZE, NextFblkp(s.mem, bp))
              else s.mem;
    var head := if PrevFblkp(s.mem, bp) != NULL then s.head else NextFblkp(s.mem, bp);
    State(Link(m1, NextFblkp(m1, bp), PrevFblkp(m1, bp)), s.brk, head)
  }

  /** insert_first (mm.c lines 413-419). */
  function InsertLinks(s: State, bp: int): (s': State)
    ensures |s'.mem| == |s.mem| && s'.brk == s.brk && s'.head == bp
  {
    var m1 := Link(s.mem, bp + DSIZE, s.head);
    var m2 := Link(m1, s.head, bp);
    State(Link(m2, bp, NULL), s.brk, bp)
  }

  /** coalesce's prev_alloc: the footer before bp says allocated, or bp is the first block. */
  function PrevAllocated(m: seq<int>, bp: int): bool
  {
    GetAlloc(Get(m, Ftrp(m, PrevBlkp(m, bp)))) == 1 || PrevBlkp(m, bp) == bp
  }

  /** coalesce's next_alloc: the header after bp says allocated. */
  function NextAllocated(m: seq<int>, bp: int): bool
  {
    GetAlloc(Get(m, Hdrp(NextBlkp(m, bp)))) == 1
  }

  /**
   * Cases 2, 3 and 4 of coalesce up to its tag writes: the state once the
   * free neighbours are unlinked, the merged block's payload and its size.
   */
  function Unlink(s: State, bp: int): (res: (State, int, int))
    ensures |res.0.mem| == |s.mem| && res.0.brk == s.brk
  {
    var m, size := s.mem, GetSize(Get(s.mem, Hdrp(bp)));
    if PrevAllocated(m, bp) then
      (RemoveLinks(s, NextBlkp(m, bp)), bp, size + GetSize(Get(m, Hdrp(NextBlkp(m, bp)))))
    else if NextAllocated(m, bp) then
      (RemoveLinks(s, PrevBlkp(m, bp)), PrevBlkp(m, bp), size + GetSize(Get(m, Hdrp(PrevBlkp(m, bp)))))
    else
      var total := size + GetSize(Get(m, Hdrp(PrevBlkp(m, bp)))) + GetSize(Get(m, Hdrp(NextBlkp(m, bp))));
      var (u2, r) := UnlinkBoth(s, bp);
      (u2, r, total)
  }

  /**
   * Case 4 of coalesce up to its tag writes: both neighbours unlinked, the
   * right one and then the merged block's payload found again from bp's
   * tags after the earlier removals.
   */
  function UnlinkBoth(s: State, bp: int): (res: (State, int))
    ensures |res.0.mem| == |s.mem| && res.0.brk == s.brk
  {
    var u1 := RemoveLinks(s, PrevBlkp(s.mem, bp));
    var u2 := RemoveLinks(u1, NextBlkp(u1.mem, bp));
    (u2, PrevBlkp(u2.mem, bp))
  }

  /** The end of coalesce: the merged block's header and footer written, and the block put first on the free list. */
  function Retag(u: State, r: int, total: int): (s': State)
    ensures |s'.mem| == |u.mem| && s'.brk == u.brk && s'.head == r
  {
    var m3 := Put(u.mem, Hdrp(r), Pack(total, 0));
    var m4 := Put(m3, Ftrp(m3, r), Pack(total, 0));
    InsertLinks(State(m4, u.brk, u.head), r)
  }

  /** coalesce (mm.c lines 346-385): the state afterwards and the block pointer returned. */
  function CoalesceStep(s: State, bp: int): (State, int)
  {
    if PrevAllocated(s.mem, bp) && NextAllocated(s.mem, bp) then
      (InsertLinks(s, bp), bp)
    else
      var (u, r, total) := Unlink(s, bp);
      (Retag(u, r, total), r)
  }

  /**
   * Every cell coalesce(bp) reads or writes, in whichever case it takes,
   * lies inside the region, the blocks it merges end where the next one
   * begins, and unlinking the left neighbour leaves the tags around bp
   * alone (CoalesceInRange shows this of any free block of a consistent
   * heap).
   */
  predicate CoalesceSafe(s: State, bp: int)
  {
    var m, pb, nb := s.mem, PrevBlkp(s.mem, bp), NextBlkp(s.mem, bp);
    var size, psize, nsize := GetSize(Get(m, Hdrp(bp))), GetSize(Get(m, Hdrp(pb))), GetSize(Get(m, Hdrp(nb)));
    DSIZE <= bp - DSIZE && bp + 2 * DSIZE <= |m| && 0 <= s.head && s.head + WSIZE < |m| &&
    WSIZE <= pb <= bp && 0 <= Ftrp(m, pb) < |m| && WSIZE <= nb <= |m| && 2 * DSIZE <= size &&
    (!NextAllocated(m, bp) ==> Unlinkable(m, nb) && 0 <= nsize && nb + nsize <= |m|) &&
    (!PrevAllocated(m, bp) ==> Unlinkable(m, pb) && DSIZE <= pb && pb + psize == bp) &&
    (!PrevAllocated(m, bp) && !NextAllocated(m, bp) ==> BothUnlinkable(s, bp))
  }

  /**
   * In case 4 of coalesce, unlinking the left neighbour leaves bp's header
   * alone and leaves the right neighbour ready to be unlinked, and that in
   * turn leaves the footer before bp alone.
   */
  predicate BothUnlinkable(s: State, bp: int)
  {
    var pb, nb := PrevBlkp(s.mem, bp), NextBlkp(s.mem, bp);
    var u1 := RemoveLinks(s, pb);
    NextBlkp(u1.mem, bp) == nb && Unlinkable(u1.mem, nb) && PrevBlkp(RemoveLinks(u1, nb).mem, bp) == pb
  }

  /**
   * Whenever coalesce merges, the merged block it tags lies in the region,
   * its size is a multiple of 8 of at least two double words, and the free
   * list head it inserts in front of is a cell of the region.
   */
  predicate MergeFits(s: State, bp: int)
  {
    var (u, r, total) := Unlink(s, bp);
    DSIZE <= r && r + 2 * DSIZE <= |s.mem| && 0 <= u.head && u.head + WSIZE < |s.mem| &&
    total % DSIZE == 0 && 2 * DSIZE <= total && r + total <= |s.mem|
  }

  lemma MergeInRange(s: State, bp: int)
    requires CoalesceSafe(s, bp) && !(PrevAllocated(s.mem, bp) && NextAllocated(s.mem, bp))
    ensures MergeFits(s, bp)
  {
    var m, pb, nb := s.mem, PrevBlkp(s.mem, bp), NextBlkp(s.mem, bp);
    SizeAligned(Get(m, Hdrp(bp)));
    SizeAligned(Get(m, Hdrp(pb)));
    SizeAligned(Get(m, Hdrp(nb)));
    if PrevAllocated(m, bp) {
      MergeRightInRange(s, bp);
    } else if NextAllocated(m, bp) {
      MergeLeftInRange(s, bp);
    } else {
      MergeBothInRange(s, bp);
    }
  }

  lemma MergeRightInRange(s: State, bp: int)
    requires CoalesceSafe(s, bp) && PrevAllocated(s.mem, bp) && !NextAllocated(s.mem, bp)
    requires GetSize(Get(s.mem, Hdrp(bp))) % DSIZE == 0 && GetSize(Get(s.mem, Hdrp(NextBlkp(s.mem, bp)))) % DSIZE == 0
    ensures MergeFits(s, bp)
  {
    var size, nsize := GetSize(Get(s.mem, Hdrp(bp))), GetSize(Get(s.mem, Hdrp(NextBlkp(s.mem, bp))));
    SumAligned(size, nsize);
    assert Unlink(s, bp) == (RemoveLinks(s, NextBlkp(s.mem, bp)), bp, size + nsize);
  }

  lemma MergeLeftInRange(s: State, bp: int)
    requires CoalesceSafe(s, bp) && !PrevAllocated(s.mem, bp) && NextAllocated(s.mem, bp)
    requires GetSize(Get(s.mem, Hdrp(bp))) % DSIZE == 0 && GetSize(Get(s.mem, Hdrp(PrevBlkp(s.mem, bp)))) % DSIZE == 0
    ensures MergeFits(s, bp)
  {
    var size, psize := GetSize(Get(s.mem, Hdrp(bp))), GetSize(Get(s.mem, Hdrp(PrevBlkp(s.mem, bp))));
    SumAligned(size, psize);
    assert Unlink(s, bp) == (RemoveLinks(s, PrevBlkp(s.mem, bp)), PrevBlkp(s.mem, bp), size + psize);
  }

  lemma MergeBothInRange(s: State, bp: int)
    requires CoalesceSafe(s, bp) && !PrevAllocated(s.mem, bp) && !NextAllocated(s.mem, bp)
    requires GetSize(Get(s.mem, Hdrp(bp))) % DSIZE == 0 && GetSize(Get(s.mem, Hdrp(PrevBlkp(s.mem, bp)))) % DSIZE == 0
    requires GetSize(Get(s.mem, Hdrp(NextBlkp(s.mem, bp)))) % DSIZE == 0
    ensures MergeFits(s, bp)
  {
    var m, pb, nb := s.mem, PrevBlkp(s.mem, bp), NextBlkp(s.mem, bp);
    var size, psize, nsize := GetSize(Get(m, Hdrp(bp))), GetSize(Get(m, Hdrp(pb))), GetSize(Get(m, Hdrp(nb)));
    SumAligned(size, psize);
    SumAligned(size + psize, nsize);
    var u1 := RemoveLinks(s, pb);
    assert 0 <= u1.head && u1.head + WSIZE < |m|;
    assert Unlink(s, bp) == (RemoveLinks(u1, nb), pb, size + psize + nsize);
  }

  // ---------------------------------------------------------------------
  // place (mm.c lines 307-325)

  /**
   * The first three statements of either branch of place: bp's header set
   * to (size, 1), the footer found through that new header set likewise,
   * and bp taken off the free list.
   */
  function TakeFront(s: State, bp: int, size: int): (s': State)
    ensures |s'.mem| == |s.mem| && s'.brk == s.brk
  {
    RemoveLinks(State(SetTags(s.mem, bp, size, 1), s.brk, s.head), bp)
  }

  /**
   * The split branch of place after remove_block: bp moves on to the next
   * block, whose header and footer are set to (rest, 0); that block's
   * pointer is returned with the state.
   */
  function TagRest(u: State, bp: int, rest: int): (res: (State, int))
    ensures |res.0.mem| == |u.mem| && res.0.brk == u.brk && res.0.head == u.head
  {
    var nb := NextBlkp(u.mem, bp);
    (State(SetTags(u.mem, nb, rest, 0), u.brk, u.head), nb)
  }

  /**
   * place(bp, asize): split off and coalesce a free remainder when it
   * would be at least a minimum block, else allocate the whole block.
   */
  function PlaceStep(s: State, bp: int, asize: int): State
  {
    if Remnant(s, bp, asize) >= BLOCKSIZE then SplitStep(s, bp, asize)
    else TakeFront(s, bp, GetSize(Get(s.mem, Hdrp(bp))))
  }

  /** The size left over when place puts asize bytes into the free block at bp. */
  function Remnant(s: State, bp: int, asize: int): int
  {
    GetSize(Get(s.mem, Hdrp(bp))) - asize
  }

  /** The split branch of place: allocate the front, tag the rest as a free block and coalesce it. */
  function SplitStep(s: State, bp: int, asize: int): State
  {
    var t := TagRest(TakeFront(s, bp, asize), bp, Remnant(s, bp, asize));
    CoalesceStep(t.0, t.1).0
  }

  /** The cells TakeFront reads and writes lie in the region and the front is a well-formed block. */
  predicate TakeSafe(s: State, bp: int, size: int)
  {
    WSIZE <= bp && size % DSIZE == 0 && BLOCKSIZE <= size && bp + size <= |s.mem| && Unlinkable(s.mem, bp)
  }

  /** The cells TagRest reads and writes lie in the region and the remainder is a well-formed block. */
  predicate RestSafe(u: State, bp: int, rest: int)
  {
    var nb := NextBlkp(u.mem, bp);
    WSIZE <= bp < |u.mem| && WSIZE <= nb && rest % DSIZE == 0 && BLOCKSIZE <= rest && nb + rest <= |u.mem|
  }

  /** The split branch of place stays in the region, up to and including the coalesce of the remainder. */
  predicate SplitSafe(s: State, bp: int, asize: int)
  {
    var u := TakeFront(s, bp, asize);
    RestSafe(u, bp, Remnant(s, bp, asize)) && var (u5, nb) := TagRest(u, bp, Remnant(s, bp, asize)); CoalesceSafe(u5, nb)
  }

  /** SplitSafe and SplitStep, read at the states the split branch passes through. */
  lemma SplitSafeAt(s: State, bp: int, asize: int, rest: int, u: State, u5: State, nb: int)
    requires SplitSafe(s, bp, asize) && rest == Remnant(s, bp, asize) && u == TakeFront(s, bp, asize)
    ensures RestSafe(u, bp, rest)
    ensures (u5, nb) == TagRest(u, bp, rest) ==> CoalesceSafe(u5, nb)
  {
  }

  lemma SplitStepAt(s: State, bp: int, asize: int, rest: int, u: State, u5: State, nb: int)
    requires rest == Remnant(s, bp, asize) && u == TakeFront(s, bp, asize)
    requires (u5, nb) == TagRest(u, bp, rest)
    ensures SplitStep(s, bp, asize) == CoalesceStep(u5, nb).0
  {
  }

  /**
   * place(bp, asize) stays in the region.  The block must hold at least
   * asize bytes, as every caller of place ensures; for a larger asize the
   * unsigned `csize - asize` of the source would wrap around.
   */
  predicate PlaceSafe(s: State, bp: int, asize: int)
  {
    var csize := GetSize(Get(s.mem, Hdrp(bp)));
    WSIZE <= bp < |s.mem| && asize <= csize &&
    if Remnant(s, bp, asize) >= BLOCKSIZE then TakeSafe(s, bp, asize) && SplitSafe(s, bp, asize)
    else TakeSafe(s, bp, csize)
  }

  /** A write away from bp's two link slots leaves bp as ready to be unlinked as it was. */
  lemma UnlinkableUnderPut(m: seq<int>, bp: int, c: int, v: int)
    requires Unlinkable(m, bp) && c != bp && c != bp + DSIZE
    ensures Unlinkable(Put(m, c, v), bp)
  {
  }

  // ---------------------------------------------------------------------
  // extend_heap (mm.c lines 275-298)

  /** The region grown by `size` bytes at the old break, with the new block's tags and the new epilogue written. */
  function Grow(s: State, size: int): State
  {
    State(NewBlockTags(s.mem, s.brk, size), s.brk + size, s.head)
  }

  /**
   * extend_heap(words): when the region cannot grow by ExtendSize(words)
   * bytes, NULL with nothing changed; otherwise the new free block at the
   * old break is coalesced, and the state and pointer are coalesce's.
   */
  function ExtendStep(s: State, words: nat): (State, int)
  {
    if s.brk + ExtendSize(words) > |s.mem| then (s, NULL)
    else CoalesceStep(Grow(s, ExtendSize(words)), s.brk)
  }

  /** extend_heap stays in the region whenever the region can grow. */
  predicate ExtendSafe(s: State, words: nat)
  {
    s.brk + ExtendSize(words) <= |s.mem| ==> WSIZE <= s.brk && CoalesceSafe(Grow(s, ExtendSize(words)), s.brk)
  }

  // ---------------------------------------------------------------------
  // mm_free (mm.c lines 157-171)

  /** bp's tags rewritten as free, with the size its header holds. */
  function ClearTags(s: State, bp: int): State
  {
    State(SetTags(s.mem, bp, GetSize(Get(s.mem, Hdrp(bp))), 0), s.brk, s.head)
  }

  /** mm_free(bp): nothing for NULL; otherwise the block is marked free and coalesced. */
  function FreeStep(s: State, bp: int): State
  {
    if bp == NULL then s else CoalesceStep(ClearTags(s, bp), bp).0
  }

  /** mm_free stays in the region. */
  predicate FreeSafe(s: State, bp: int)
  {
    var size := GetSize(Get(s.mem, Hdrp(bp)));
    bp != NULL ==>
      WSIZE <= bp && size % DSIZE == 0 && DSIZE <= size && bp + size <= |s.mem| && CoalesceSafe(ClearTags(s, bp), bp)
  }

  // ---------------------------------------------------------------------
  // find_fit (mm.c lines 331-341)

  /** The sizes find_fit reads from the headers of the list entries, in list order. */
  function ListSizes(m: seq<int>, free: seq<int>): (sizes: seq<int>)
    ensures |sizes| == |free|
    ensures forall i :: 0 <= i < |free| ==> sizes[i] == GetSize(Get(m, Hdrp(free[i])))
  {
    seq(|free|, i requires 0 <= i < |free| => GetSize(Get(m, Hdrp(free[i]))))
  }

  /**
   * free_listp is the first of the blocks find_fit visits, and at each
   * step the header read says free exactly while the walk is still on the
   * list, and the next link read leads to the following one: the walk
   * stops at the prologue after the last entry.
   */
  ghost predicate Walkable(m: seq<int>, head: int, free: seq<int>)
  {
    head == ListAt(free, 0) &&
    forall i {:trigger ListAt(free, i)} :: 0 <= i <= |free| ==>
      WSIZE <= ListAt(free, i) && ListAt(free, i) + DSIZE + WSIZE < |m| &&
      (GetAlloc(m[ListAt(free, i) - WSIZE]) == 0 <==> i < |free|) &&
      (i < |free| ==> m[ListAt(free, i) + DSIZE] == ListAt(free, i + 1))
  }

  /** find_fit(asize) over the list `free`: the first entry whose header holds at least asize bytes, or NULL. */
  function FitOf(m: seq<int>, free: seq<int>, asize: int): int
  {
    var i := FirstFit(ListSizes(m, free), asize);
    if i < |free| then free[i] else NULL
  }

  // ---------------------------------------------------------------------
  // mm_init's test of the growth primitive

  /** What mem_sbrk returns when it cannot grow the region: (void *)-1. */
  const SBRK_FAILED := -1

  /** mem_sbrk on a region of `capacity` bytes with break brk: the old break, or SBRK_FAILED. */
  function SbrkResult(brk: int, incr: nat, capacity: int): (p: int)
    requires 0 <= brk
    ensures p < 0 <==> brk + incr > capacity
    ensures p >= 0 ==> p == brk
  {
    if brk + incr <= capacity then brk else SBRK_FAILED
  }

  /**
   * mm_init's failure test as written (mm.c line 98): the result compared
   * with NULL.  It is meant only for the failure value SBRK_FAILED: on a
   * successful call the first mem_sbrk returns the region's start, which
   * is address 0 in this model and so equals NULL, so the predicate says
   * nothing about a success.
   */
  predicate InitFailsAsWritten(p: int) { p == NULL }

  /** The failure test extend_heap uses (mm.c line 286), which the model's mm_init uses too. */
  predicate SbrkFailed(p: int) { p < 0 }

  /**
   * On a region too small for the prologue, mm_init as written misses the
   * failure: mem_sbrk returns -1, the NULL test passes it, and the first PUT
   * (at heap_listp, mm.c line 100) falls outside the region.
   */
  lemma InitGuardMissesFailure(capacity: nat)
    requires capacity < INIT_SIZE
    ensures var p := SbrkResult(0, INIT_SIZE, capacity);
            !InitFailsAsWritten(p) && !(0 <= p < capacity) && SbrkFailed(p)
  {
  }
}
