/*
 * Facts about the memory snapshots that the methods of Allocator pass
 * through: which cells the free-list routines write, and how the tag
 * writes of each routine combine with the link writes around them.
 */
module Steps {
  import opened Layout
  import opened Blocks
  import opened FreeList
  import opened Transitions
  import opened Frames
  import opened Memory
  import opened Routines

  /** insert_first writes only the link slots of the new head, of the old head (or the prologue). */
  lemma InsertedChangesLinks(m0: seq<int>, m3: seq<int>, head: int, free: seq<int>, bp: int)
    requires Linked(m0, head, free) && 2 * DSIZE <= bp && bp + 2 * DSIZE <= |m0|
    requires 0 <= head && head + WSIZE < |m0|
    requires m3 == SetLink(SetLink(SetLink(m0, bp + DSIZE, head), head, bp), bp, NULL)
    ensures ChangedOnlyLinks(m0, m3, [bp] + free)
  {
    var r := [bp] + free;
    assert r[0] == bp;
    if |free| > 0 { assert r[1] == free[0] == head; }
    forall c | 0 <= c < |m0| && !InLinkArea(r, c) ensures m3[c] == m0[c] {
      assert !(r[0] <= c < r[0] + 2 * DSIZE);
      if |free| > 0 { assert !(r[1] <= c < r[1] + 2 * DSIZE); }
    }
  }

  /** remove_block's writes: the successor's previous link, and the predecessor's next link when there is one. */
  lemma RemovedChangesLinks(m0: seq<int>, m2: seq<int>, head: int, free: seq<int>, i: int)
    requires Linked(m0, head, free) && 0 <= i < |free|
    requires var prev, next := PrevOf(free, i), NextOf(free, i);
             0 <= next && next + WSIZE < |m0| &&
             (prev != NULL ==> 0 <= prev + DSIZE && prev + DSIZE + WSIZE < |m0|) &&
             m2 == (if prev != NULL then SetLink(SetLink(m0, prev + DSIZE, next), next, prev)
                    else SetLink(m0, next, prev))
    ensures RemoveWrites(m0, m2, free, i) && ChangedOnlyLinks(m0, m2, free)
  {
    var prev, next := PrevOf(free, i), NextOf(free, i);
    LinksOf(m0, head, free, i);
    if prev != NULL {
      assert next + WSIZE < prev + DSIZE || prev + DSIZE + WSIZE < next by {
        if i < |free| - 1 { assert free[i - 1] != free[i + 1]; }
      }
    }
    forall c | 0 <= c < |m0| && !InLinkArea(free, c) ensures m2[c] == m0[c] {
      if i < |free| - 1 { assert !(free[i + 1] <= c < free[i + 1] + 2 * DSIZE); }
      if i > 0 { assert !(free[i - 1] <= c < free[i - 1] + 2 * DSIZE); }
    }
  }

  // ---------------------------------------------------------------------
  // coalesce

  /**
   * What coalesce reads around block k: PREV_BLKP lands on the left
   * neighbour (or on the block itself for the first block, whose left word
   * reads 0), NEXT_BLKP on the right neighbour (or the epilogue), and the
   * allocation bits found there say exactly whether each neighbour is free.
   */
  lemma CoalesceReads(m: seq<int>, bs: seq<Block>, brk: int, head: int, fl: seq<int>, k: int)
    requires 0 <= k < |bs| && Consistent(m, brk, head, bs, fl, bs[k].bp, NULL) && !bs[k].alloc
    ensures FIRST_BP <= bs[k].bp && End(bs[k]) <= |m|
    ensures var bp := bs[k].bp;
            WSIZE <= PrevBlkp(m, bp) <= bp && 0 <= Ftrp(m, PrevBlkp(m, bp)) < |m| &&
            (PrevAllocated(m, bp) <==> !LeftFree(bs, k)) &&
            (LeftFree(bs, k) ==> PrevBlkp(m, bp) == bs[k - 1].bp &&
                                 GetSize(Get(m, Hdrp(bs[k - 1].bp))) == bs[k - 1].size && bs[k - 1].bp in fl)
    ensures var bp := bs[k].bp;
            GetSize(Get(m, Hdrp(bp))) == bs[k].size && bp <= NextBlkp(m, bp) <= |m| &&
            (NextAllocated(m, bp) <==> !RightFree(bs, k)) &&
            (RightFree(bs, k) ==> NextBlkp(m, bp) == bs[k + 1].bp &&
                                  GetSize(Get(m, Hdrp(bs[k + 1].bp))) == bs[k + 1].size && bs[k + 1].bp in fl)
  {
    Within(bs, brk, k);
    LeftSide(m, bs, brk, k);
    RightSide(m, bs, brk, k);
    if LeftFree(bs, k) { InFreeList(bs, brk, fl, k - 1, bs[k].bp); }
    if RightFree(bs, k) { InFreeList(bs, brk, fl, k + 1, bs[k].bp); }
  }

  /** The left half of CoalesceReads. */
  lemma LeftSide(m: seq<int>, bs: seq<Block>, brk: int, k: int)
    requires 0 <= k < |bs| && Laid(bs, brk) && brk <= |m| && Tagged(m, bs, NULL) && Sentinels(m, bs, brk)
    requires !bs[k].alloc && FIRST_BP <= bs[k].bp && End(bs[k]) <= |m|
    ensures var bp := bs[k].bp;
            WSIZE <= PrevBlkp(m, bp) <= bp && 0 <= Ftrp(m, PrevBlkp(m, bp)) < |m| &&
            (PrevAllocated(m, bp) <==> !LeftFree(bs, k)) &&
            (LeftFree(bs, k) ==> PrevBlkp(m, bp) == bs[k - 1].bp &&
                                 GetSize(Get(m, Hdrp(bs[k - 1].bp))) == bs[k - 1].size)
  {
    NeighbourReads(m, bs, brk, k, NULL);
    if k > 0 {
      Within(bs, brk, k - 1);
      Adjacent(bs, brk, k);
      LeftNeighbour(m, bs[k].bp, bs[k - 1]);
    } else {
      LeftOfFirst(m, bs[k]);
    }
  }

  /** The right half of CoalesceReads. */
  lemma RightSide(m: seq<int>, bs: seq<Block>, brk: int, k: int)
    requires 0 <= k < |bs| && Laid(bs, brk) && brk <= |m| && Tagged(m, bs, NULL) && Sentinels(m, bs, brk)
    requires !bs[k].alloc && FIRST_BP <= bs[k].bp && End(bs[k]) <= |m|
    ensures var bp := bs[k].bp;
            GetSize(Get(m, Hdrp(bp))) == bs[k].size && bp <= NextBlkp(m, bp) <= |m| &&
            (NextAllocated(m, bp) <==> !RightFree(bs, k)) &&
            (RightFree(bs, k) ==> NextBlkp(m, bp) == bs[k + 1].bp &&
                                  GetSize(Get(m, Hdrp(bs[k + 1].bp))) == bs[k + 1].size)
  {
    NeighbourReads(m, bs, brk, k, NULL);
    if k < |bs| - 1 {
      Within(bs, brk, k + 1);
      Adjacent(bs, brk, k + 1);
      RightNeighbour(m, bs[k], bs[k + 1]);
    } else {
      RightOfLast(m, bs[k]);
    }
  }

  /** PREV_BLKP from the block after a reads a's footer and lands on a; prev_alloc is a's allocation bit. */
  lemma LeftNeighbour(m: seq<int>, bp: int, a: Block)
    requires a.size % DSIZE == 0 && a.size >= BLOCKSIZE && DSIZE <= a.bp && End(a) == bp && bp < |m|
    requires m[Header(a)] == Tag(a) && m[bp - DSIZE] == Tag(a)
    ensures WSIZE <= PrevBlkp(m, bp) <= bp && 0 <= Ftrp(m, PrevBlkp(m, bp)) < |m| &&
            (PrevAllocated(m, bp) <==> a.alloc) &&
            (!a.alloc ==> PrevBlkp(m, bp) == a.bp && GetSize(Get(m, Hdrp(a.bp))) == a.size)
  {
    TagFields(a);
    LeftMacros(m, bp, !a.alloc, a);
  }

  /** For the first block the word before its header reads 0, so PREV_BLKP stays on the block and counts as allocated. */
  lemma LeftOfFirst(m: seq<int>, b: Block)
    requires b.size % DSIZE == 0 && b.size >= BLOCKSIZE && DSIZE <= b.bp && End(b) <= |m|
    requires m[b.bp - DSIZE] == 0 && m[Header(b)] == Tag(b)
    ensures WSIZE <= PrevBlkp(m, b.bp) <= b.bp && 0 <= Ftrp(m, PrevBlkp(m, b.bp)) < |m| && PrevAllocated(m, b.bp)
  {
    TagFields(b);
    assert GetSize(m[b.bp - DSIZE]) == 0;
    assert GetSize(m[b.bp - WSIZE]) == b.size;
    LeftMacros(m, b.bp, false, b);
  }

  /** NEXT_BLKP from b reads b's header and lands on the block c after it; next_alloc is c's allocation bit. */
  lemma RightNeighbour(m: seq<int>, b: Block, c: Block)
    requires b.size % DSIZE == 0 && b.size >= BLOCKSIZE && c.size % DSIZE == 0 && c.size >= BLOCKSIZE && WSIZE <= b.bp
    requires c.bp == End(b) && End(c) <= |m|
    requires m[Header(b)] == Tag(b) && m[Header(c)] == Tag(c)
    ensures GetSize(Get(m, Hdrp(b.bp))) == b.size && b.bp <= NextBlkp(m, b.bp) <= |m| &&
            (NextAllocated(m, b.bp) <==> c.alloc) &&
            (!c.alloc ==> NextBlkp(m, b.bp) == c.bp && GetSize(Get(m, Hdrp(c.bp))) == c.size)
  {
    TagFields(b);
    TagFields(c);
    RightMacros(m, b.bp, !c.alloc, c);
  }

  /** NEXT_BLKP from the last block lands on the epilogue, whose header says allocated. */
  lemma RightOfLast(m: seq<int>, b: Block)
    requires b.size % DSIZE == 0 && b.size >= BLOCKSIZE && WSIZE <= b.bp && End(b) <= |m|
    requires m[Header(b)] == Tag(b) && m[End(b) - WSIZE] == Pack(0, 1)
    ensures GetSize(Get(m, Hdrp(b.bp))) == b.size && b.bp <= NextBlkp(m, b.bp) <= |m| && NextAllocated(m, b.bp)
  {
    TagFields(b);
    assert GetSize(m[b.bp - WSIZE]) == b.size;
    assert GetAlloc(m[End(b) - WSIZE]) == 1;
    RightMacros(m, b.bp, false, b);
  }

  /**
   * Inside the region, PREV_BLKP, FTRP and coalesce's prev_alloc are the
   * plain reads of its left neighbour, so what those reads say about the left
   * neighbour (free or not, where it starts, its size) carries over.
   */
  lemma LeftMacros(m: seq<int>, bp: int, free: bool, left: Block)
    requires DSIZE <= bp < |m|
    requires var pb := bp - GetSize(m[bp - DSIZE]);
             WSIZE <= pb <= bp && 0 <= pb + GetSize(m[pb - WSIZE]) - DSIZE < |m| &&
             ((GetAlloc(m[pb + GetSize(m[pb - WSIZE]) - DSIZE]) == 1 || pb == bp) <==> !free) &&
             (free ==> pb == left.bp && GetSize(m[pb - WSIZE]) == left.size)
    ensures WSIZE <= PrevBlkp(m, bp) <= bp && 0 <= Ftrp(m, PrevBlkp(m, bp)) < |m| &&
            (PrevAllocated(m, bp) <==> !free) &&
            (free ==> PrevBlkp(m, bp) == left.bp && GetSize(Get(m, Hdrp(left.bp))) == left.size)
  {
  }

  /** Inside the region, NEXT_BLKP and coalesce's next_alloc are the plain reads of the words at bp - 4 and after the block. */
  lemma RightMacros(m: seq<int>, bp: int, free: bool, right: Block)
    requires WSIZE <= bp < |m|
    requires var nb := bp + GetSize(m[bp - WSIZE]);
             bp <= nb <= |m| &&
             (GetAlloc(m[nb - WSIZE]) == 1 <==> !free) &&
             (free ==> nb == right.bp && GetSize(m[nb - WSIZE]) == right.size)
    ensures bp <= NextBlkp(m, bp) <= |m| && GetSize(Get(m, Hdrp(bp))) == GetSize(m[bp - WSIZE]) &&
            (NextAllocated(m, bp) <==> !free) &&
            (free ==> NextBlkp(m, bp) == right.bp && GetSize(Get(m, Hdrp(right.bp))) == right.size)
  {
  }

  /** A free block other than the pending one is on a list that tracks the free blocks. */
  lemma InFreeList(bs: seq<Block>, brk: int, fl: seq<int>, j: int, pending: int)
    requires Tracks(bs, fl, pending) && 0 <= j < |bs| && !bs[j].alloc && bs[j].bp != pending
    ensures bs[j].bp in fl
  {
  }

  /** GET_SIZE and GET_ALLOC read back what a block's tag says. */
  lemma TagFields(b: Block)
    requires b.size % DSIZE == 0
    ensures GetSize(Tag(b)) == b.size && GetAlloc(Tag(b)) == AllocBit(b)
  {
    PackRoundTrip(b.size, AllocBit(b));
  }

  /** Writes confined to the links of a list keep confined to the links of the list it shrinks from. */
  lemma ChangedOnlyLinksTrans(a: seq<int>, b: seq<int>, c: seq<int>, fl: seq<int>, x: int)
    requires ChangedOnlyLinks(a, b, fl) && ChangedOnlyLinks(b, c, Remove(fl, x))
    ensures ChangedOnlyLinks(a, c, fl)
  {
    var r := Remove(fl, x);
    forall p | 0 <= p < |a| && !InLinkArea(fl, p) ensures c[p] == a[p] {
      forall i | 0 <= i < |r| ensures !(r[i] <= p < r[i] + 2 * DSIZE) {
        assert r[i] in fl;
        var j :| 0 <= j < |fl| && fl[j] == r[i];
        assert !(fl[j] <= p < fl[j] + 2 * DSIZE);
      }
    }
  }

  /** Every entry of a list that tracks the free blocks (but one) names a free block. */
  lemma TrackedListed(bs: seq<Block>, fl: seq<int>, pending: int, x: int)
    requires Tracks(bs, fl, pending)
    ensures Listed(bs, fl) && Listed(bs, Remove(fl, x))
  {
    var r := Remove(fl, x);
    forall i | 0 <= i < |r| ensures IsFreeBlock(bs, r[i]) {
      assert r[i] in fl;
    }
  }

  /**
   * coalesce's tag writes, after it has unlinked the free neighbours: the
   * merged block's header over block Lo's, its footer over block Hi's.  The
   * memory then tags the coalesced blocks, still encodes the shortened list,
   * and every allocated payload is as it was.
   */
  lemma CoalesceWrites(m0: seq<int>, m2: seq<int>, m3: seq<int>, bs: seq<Block>, brk: int,
                       head0: int, head2: int, fl: seq<int>, k: int)
    requires 0 <= k < |bs| && Consistent(m0, brk, head0, bs, fl, bs[k].bp, NULL) && !bs[k].alloc
    requires ChangedOnlyLinks(m0, m2, fl) && Linked(m2, head2, Unlinked(bs, fl, k))
    requires Merged(bs, k).size % DSIZE == 0 && 0 <= Header(bs[Lo(bs, k)]) && Footer(bs[Hi(bs, k)]) < |m2|
    requires m3 == m2[Header(bs[Lo(bs, k)]) := Tag(Merged(bs, k))][Footer(bs[Hi(bs, k)]) := Tag(Merged(bs, k))]
    ensures var c, mb := Coalesced(bs, k), Merged(bs, k);
            Laid(c, brk) && Tagged(m3, c, NULL) && Sentinels(m3, c, brk) &&
            Linked(m3, head2, Unlinked(bs, fl, k)) && Spaced(CoalescedFree(bs, fl, k)) &&
            Tracks(c, CoalescedFree(bs, fl, k), NULL) && NoAdjacentFree(c, NULL) &&
            KeepsAllocated(bs, c, NULL) && PayloadsKept(m0, m3, bs, NULL) &&
            2 * DSIZE <= mb.bp && mb.bp + 2 * DSIZE <= |m3|
  {
    var lo, hi, mb, u := Lo(bs, k), Hi(bs, k), Merged(bs, k), Unlinked(bs, fl, k);
    CoalesceSound(bs, brk, fl, k);
    TrackedListed(bs, fl, bs[k].bp, bs[k].bp);
    LinkChangesKeep(m0, m2, bs, brk, fl, NULL);
    MergeTags(m2, bs, brk, k);
    Within(bs, brk, lo);
    Within(bs, brk, hi);
    assert Listed(bs, u) by {
      forall i | 0 <= i < |u| ensures IsFreeBlock(bs, u[i]) {
        UnlinkedMembers(bs, fl, k, u[i]);
      }
    }
    var m25 := m2[Header(bs[lo]) := Tag(mb)];
    TagWriteKeepsLinked(m2, head2, u, bs, brk, lo, Header(bs[lo]), Tag(mb));
    TagWriteKeepsLinked(m25, head2, u, bs, brk, hi, Footer(bs[hi]), Tag(mb));
    WriteKeepsPayloads(m2, bs, brk, NULL, lo, Header(bs[lo]), Tag(mb));
    WriteKeepsPayloads(m25, bs, brk, NULL, hi, Footer(bs[hi]), Tag(mb));
    PayloadsKeptTrans(m2, m25, m3, bs, NULL);
    PayloadsKeptTrans(m0, m2, m3, bs, NULL);
  }

  /** After insert_first links the merged block in, the heap is consistent again. */
  lemma CoalesceFinish(m0: seq<int>, m3: seq<int>, m4: seq<int>, bs: seq<Block>, c: seq<Block>, brk: int,
                       head: int, cf: seq<int>)
    requires Laid(c, brk) && brk <= |m3| && Tagged(m3, c, NULL) && Sentinels(m3, c, brk)
    requires Tracks(c, cf, NULL) && NoAdjacentFree(c, NULL) && Laid(bs, brk)
    requires KeepsAllocated(bs, c, NULL) && PayloadsKept(m0, m3, bs, NULL) && |m0| == |m3|
    requires ChangedOnlyLinks(m3, m4, cf) && Linked(m4, head, cf)
    ensures Consistent(m4, brk, head, c, cf, NULL, NULL) && PayloadsKept(m0, m4, bs, NULL)
  {
    TrackedListed(c, cf, NULL, NULL);
    LinkChangesKeep(m3, m4, c, brk, cf, NULL);
    PayloadsKeptBack(m3, m4, bs, c, brk, NULL);
    PayloadsKeptTrans(m0, m3, m4, bs, NULL);
  }
}
