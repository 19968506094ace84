/*
 * The checks of mm_checkheap (mm.c lines 246-267) and
 * checkblock (mm.c lines 405-411), as ghost predicates over a memory
 * snapshot, and the proof that a consistent heap passes them.  The
 * printing of mm_checkheap and printblock is not modelled.
 */
module Checks {
  import opened Layout
  import opened Blocks
  import opened FreeList
  import opened Memory
  import opened Routines
  import opened Effects

  /** checkblock (mm.c lines 405-411): bp is doubleword aligned and GET(HDRP(bp)) == GET(FTRP(bp)). */
  ghost predicate BlockChecks(m: seq<int>, bp: int)
  {
    bp % DSIZE == 0 && Get(m, Hdrp(bp)) == Get(m, Ftrp(m, bp))
  }

  /** Every block starts 8-aligned: the first at FIRST_BP, each next one a multiple of 8 further on. */
  lemma {:induction false} BlockAligned(bs: seq<Block>, brk: int, k: int)
    requires Laid(bs, brk) && 0 <= k < |bs|
    ensures bs[k].bp % DSIZE == 0
    decreases k
  {
    assert bs[k].bp == StartOf(bs, k);
    if k > 0 {
      BlockAligned(bs, brk, k - 1);
      SumAligned(bs[k - 1].bp, bs[k - 1].size);
    }
  }

  /** An aligned block whose header and footer words hold its tag passes checkblock, and its header has its allocation bit. */
  lemma TaggedBlockChecks(m: seq<int>, b: Block)
    requires b.bp % DSIZE == 0 && b.size % DSIZE == 0 && b.size >= DSIZE && 0 <= Header(b) && Footer(b) < |m|
    requires m[Header(b)] == Tag(b) && m[Footer(b)] == Tag(b)
    ensures BlockChecks(m, b.bp)
    ensures GetSize(Get(m, Hdrp(b.bp))) == b.size && GetAlloc(Get(m, Hdrp(b.bp))) == AllocBit(b)
  {
    PackRoundTrip(b.size, AllocBit(b));
    assert Ftrp(m, b.bp) == Footer(b);
  }

  /** Block k of a consistent heap passes checkblock. */
  lemma BlockOfHeapChecks(m: seq<int>, bs: seq<Block>, brk: int, k: int)
    requires Laid(bs, brk) && Tagged(m, bs, NULL) && 0 <= k < |bs|
    ensures BlockChecks(m, bs[k].bp)
    ensures GetAlloc(Get(m, Hdrp(bs[k].bp))) == AllocBit(bs[k])
  {
    BlockAligned(bs, brk, k);
    TaggedBlockChecks(m, bs[k]);
  }

  /**
   * The per-block checks of mm_checkheap hold on a consistent heap, with
   * the prologue tested at its own bp PROLOGUE_BP (mm.c lines 253-255 read
   * HDRP(heap_listp), a word before the region): the prologue has size
   * BLOCKSIZE and is allocated, every block (in particular every free block
   * the free-list walk visits) passes checkblock, every entry of the walk
   * is free, and the walk from free_listp stops at the prologue, whose
   * allocated header ends it.  The epilogue test is EpilogueTestAsWritten.
   */
  lemma HeapChecks(s: State, bs: seq<Block>, fl: seq<int>)
    requires Sound(s, bs, fl)
    ensures BlockChecks(s.mem, PROLOGUE_BP)
    ensures GetSize(Get(s.mem, Hdrp(PROLOGUE_BP))) == BLOCKSIZE && GetAlloc(Get(s.mem, Hdrp(PROLOGUE_BP))) == 1
    ensures forall k :: 0 <= k < |bs| ==> BlockChecks(s.mem, bs[k].bp)
    ensures forall i :: 0 <= i < |fl| ==> BlockChecks(s.mem, fl[i]) && GetAlloc(Get(s.mem, Hdrp(fl[i]))) == 0
    ensures s.head == (if |fl| == 0 then PROLOGUE_BP else fl[0])
    ensures |fl| > 0 ==> NextFblkp(s.mem, fl[|fl| - 1]) == PROLOGUE_BP
  {
    PackRoundTrip(BLOCKSIZE, 1);
    assert Ftrp(s.mem, PROLOGUE_BP) == PROLOGUE_FTR;
    forall k | 0 <= k < |bs| ensures BlockChecks(s.mem, bs[k].bp) {
      BlockOfHeapChecks(s.mem, bs, s.brk, k);
    }
    forall i | 0 <= i < |fl| ensures BlockChecks(s.mem, fl[i]) && GetAlloc(Get(s.mem, Hdrp(fl[i]))) == 0 {
      assert IsFreeBlock(bs, fl[i]);
      var k :| 0 <= k < |bs| && bs[k].bp == fl[i] && !bs[k].alloc;
      BlockOfHeapChecks(s.mem, bs, s.brk, k);
    }
    if |fl| > 0 {
      assert NextFblkp(s.mem, fl[|fl| - 1]) == NextOf(fl, |fl| - 1);
    }
  }

  /**
   * Where mm_checkheap's free-list walk (mm.c lines 257-261) stops: at the
   * link after the last list entry, or at free_listp itself when the list
   * is empty.
   */
  ghost function WalkEnd(s: State, fl: seq<int>): int
  {
    if |fl| == 0 then s.head else NextFblkp(s.mem, fl[|fl| - 1])
  }

  /**
   * mm_checkheap's epilogue test as written (mm.c lines 265-266) looks at
   * the header of the block where the free-list walk stops.  On every
   * consistent heap that block is the prologue, whose header has size
   * BLOCKSIZE, so the test reports a bad epilogue on every heap.
   */
  lemma EpilogueTestAsWritten(s: State, bs: seq<Block>, fl: seq<int>)
    requires Sound(s, bs, fl)
    ensures WalkEnd(s, fl) == PROLOGUE_BP
    ensures GetSize(Get(s.mem, Hdrp(WalkEnd(s, fl)))) == BLOCKSIZE
  {
    HeapChecks(s, bs, fl);
  }

  /**
   * The epilogue test as evidently intended: the header just below the
   * break, after the last block, has size 0 and is allocated.
   */
  lemma EpilogueChecks(s: State, bs: seq<Block>, fl: seq<int>)
    requires Sound(s, bs, fl) && |bs| > 0
    ensures GetSize(Get(s.mem, Hdrp(s.brk))) == 0 && GetAlloc(Get(s.mem, Hdrp(s.brk))) == 1
  {
    assert Sentinels(s.mem, bs, s.brk);
    assert Get(s.mem, Hdrp(s.brk)) == Pack(0, 1);
    PackRoundTrip(0, 1);
  }
}
