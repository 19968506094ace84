/*
 * What the routines of Routines do to a consistent heap: each takes a
 * memory that encodes a shape to a memory that encodes the shape the
 * functions of Transitions prescribe, and changes no allocated payload.
 * The methods of Allocator are proved to compute the routines, and call
 * these lemmas to carry the abstract shape along.
 */
module Effects {
  import opened Layout
  import opened Blocks
  import opened FreeList
  import opened Transitions
  import opened Frames
  import opened Memory
  import opened Steps
  import opened Routines

  /** A state between operations: consistent with no block pending and no footer stale. */
  ghost predicate Sound(s: State, bs: seq<Block>, fl: seq<int>)
  {
    Consistent(s.mem, s.brk, s.head, bs, fl, NULL, NULL)
  }

  /** Inside the region, the total macros are the plain updates. */
  lemma LinkInRange(m: seq<int>, p: int, v: int)
    requires 0 <= p && p + WSIZE < |m|
    ensures Link(m, p, v) == SetLink(m, p, v)
  {
  }

  // ---------------------------------------------------------------------
  // insert_first and remove_block

  /**
   * remove_block on the entry at position i of an encoded list reads and
   * writes only inside the region, leaves the list without that entry
   * (free_listp moving on when it was the head), and changes only link
   * cells.
   */
  lemma RemoveLinksSound(m: seq<int>, brk: int, head: int, free: seq<int>, i: int)
    requires Linked(m, head, free) && 0 <= i < |free|
    ensures Unlinkable(m, free[i])
    ensures var s := RemoveLinks(State(m, brk, head), free[i]);
            s.brk == brk && s.head == (if i == 0 then NextOf(free, 0) else head) &&
            Linked(s.mem, s.head, Without(free, i)) && ChangedOnlyLinks(m, s.mem, free)
  {
    var bp, prev, next := free[i], PrevOf(free, i), NextOf(free, i);
    LinksOf(m, head, free, i);
    EntryUnlinkable(m, head, free, i);
    assert PrevFblkp(m, bp) == prev && NextFblkp(m, bp) == next;
    var m1 := if prev != NULL then SetLink(m, prev + DSIZE, next) else m;
    if prev != NULL { LinkInRange(m, prev + DSIZE, next); }
    assert PrevFblkp(m1, bp) == prev && NextFblkp(m1, bp) == next;
    LinkInRange(m1, next, prev);
    var m2 := SetLink(m1, next, prev);
    assert RemoveLinks(State(m, brk, head), bp).mem == m2;
    RemovedChangesLinks(m, m2, head, free, i);
    LinkedAfterRemoveAt(m, m2, head, free, i);
  }

  /** Every entry of an encoded list can be unlinked: its links and its neighbours' link slots lie in the region. */
  lemma EntryUnlinkable(m: seq<int>, head: int, free: seq<int>, i: int)
    requires Linked(m, head, free) && 0 <= i < |free|
    ensures Unlinkable(m, free[i])
  {
    LinksOf(m, head, free, i);
    if i > 0 {
      assert free[i - 1] + 2 * DSIZE <= free[i] || free[i] + 2 * DSIZE <= free[i - 1];
    }
  }

  /**
   * insert_first on a block not yet on an encoded list: the result encodes
   * the list with the block at its head, and only link cells change.
   */
  lemma InsertLinksSound(m: seq<int>, brk: int, head: int, free: seq<int>, bp: int)
    requires Linked(m, head, free) && 2 * DSIZE <= bp && bp + 2 * DSIZE <= |m| && Spaced([bp] + free)
    ensures 0 <= head && head + WSIZE < |m|
    ensures var s := InsertLinks(State(m, brk, head), bp);
            s.brk == brk && s.head == bp &&
            Linked(s.mem, bp, [bp] + free) && ChangedOnlyLinks(m, s.mem, [bp] + free)
  {
    LinkedAfterInsert(m, head, free, bp);
    var m1 := SetLink(m, bp + DSIZE, head);
    var m2 := SetLink(m1, head, bp);
    var m3 := SetLink(m2, bp, NULL);
    LinkInRange(m, bp + DSIZE, head);
    LinkInRange(m1, head, bp);
    LinkInRange(m2, bp, NULL);
    assert InsertLinks(State(m, brk, head), bp).mem == m3;
    InsertedChangesLinks(m, m3, head, free, bp);
  }

  // ---------------------------------------------------------------------
  // coalesce

  /**
   * Cases 2 to 4 of coalesce up to the tag writes: the free neighbours are
   * off the list, only link cells have changed, and the block pointer and
   * size found are those of the merged block.
   */
  lemma UnlinkSound(s: State, bs: seq<Block>, fl: seq<int>, k: int)
    requires 0 <= k < |bs| && !bs[k].alloc && Consistent(s.mem, s.brk, s.head, bs, fl, bs[k].bp, NULL)
    requires LeftFree(bs, k) || RightFree(bs, k)
    ensures var (u, r, total) := Unlink(s, bs[k].bp);
            u.brk == s.brk && r == Merged(bs, k).bp && total == Merged(bs, k).size &&
            ChangedOnlyLinks(s.mem, u.mem, fl) && Linked(u.mem, u.head, Unlinked(bs, fl, k))
  {
    var m, bp := s.mem, bs[k].bp;
    CoalesceReads(m, bs, s.brk, s.head, fl, k);
    if !LeftFree(bs, k) {
      var i := Position(fl, bs[k + 1].bp);
      RemoveLinksSound(m, s.brk, s.head, fl, i);
      RemoveAt(fl, i);
    } else if !RightFree(bs, k) {
      var i := Position(fl, bs[k - 1].bp);
      RemoveLinksSound(m, s.brk, s.head, fl, i);
      RemoveAt(fl, i);
    } else {
      TrackedListed(bs, fl, bs[k].bp, bs[k].bp);
      BothUnlinked(s, bs, fl, k);
    }
  }

  /** Case 4 of UnlinkSound: both neighbours are removed, and the reads in between still find them. */
  lemma BothUnlinked(s: State, bs: seq<Block>, fl: seq<int>, k: int)
    requires Linked(s.mem, s.head, fl) && Laid(bs, s.brk) && s.brk <= |s.mem| && Listed(bs, fl)
    requires 0 < k < |bs| - 1 && bs[k - 1].bp in fl && bs[k + 1].bp in fl
    requires PrevBlkp(s.mem, bs[k].bp) == bs[k - 1].bp && NextBlkp(s.mem, bs[k].bp) == bs[k + 1].bp
    ensures var bp := bs[k].bp;
            var u1 := RemoveLinks(s, bs[k - 1].bp);
            var u2 := RemoveLinks(u1, bs[k + 1].bp);
            Unlinkable(s.mem, bs[k - 1].bp) && Unlinkable(u1.mem, bs[k + 1].bp) &&
            NextBlkp(u1.mem, bp) == bs[k + 1].bp && PrevBlkp(u2.mem, bp) == bs[k - 1].bp &&
            u2.brk == s.brk && ChangedOnlyLinks(s.mem, u2.mem, fl) &&
            Linked(u2.mem, u2.head, Remove(Remove(fl, bs[k - 1].bp), bs[k + 1].bp))
  {
    var m, brk, pb, nb := s.mem, s.brk, bs[k - 1].bp, bs[k + 1].bp;
    DistinctBps(bs, brk, k - 1, k + 1);
    var i := Position(fl, pb);
    RemoveLinksSound(m, brk, s.head, fl, i);
    RemoveAt(fl, i);
    var u1 := RemoveLinks(s, pb);
    var f1 := Without(fl, i);
    BlkpsKept(m, u1.mem, bs, brk, fl, k);
    var j := Position(f1, nb);
    RemoveLinksSound(u1.mem, brk, u1.head, f1, j);
    RemoveAt(f1, j);
    var u2 := RemoveLinks(u1, nb);
    ChangedOnlyLinksTrans(m, u1.mem, u2.mem, fl, pb);
    BlkpsKept(m, u2.mem, bs, brk, fl, k);
  }

  /** Link writes leave PREV_BLKP and NEXT_BLKP of every block where they were. */
  lemma BlkpsKept(m: seq<int>, m': seq<int>, bs: seq<Block>, brk: int, list: seq<int>, k: int)
    requires Laid(bs, brk) && brk <= |m| && Listed(bs, list) && ChangedOnlyLinks(m, m', list) && 0 <= k < |bs|
    ensures NextBlkp(m', bs[k].bp) == NextBlkp(m, bs[k].bp) && PrevBlkp(m', bs[k].bp) == PrevBlkp(m, bs[k].bp)
  {
    Within(bs, brk, k);
    CellOutsideLinks(bs, brk, list, k, Header(bs[k]));
    if k > 0 {
      Within(bs, brk, k - 1);
      Adjacent(bs, brk, k);
      CellOutsideLinks(bs, brk, list, k - 1, Footer(bs[k - 1]));
    } else {
      Adjacent(bs, brk, k);
      SentinelsOutsideLinks(bs, brk, list);
    }
  }

  /** A list encoded in a region past the prologue has its head inside the region. */
  lemma HeadInRange(m: seq<int>, head: int, list: seq<int>)
    requires Linked(m, head, list) && FIRST_BP <= |m|
    ensures 0 <= head && head + WSIZE < |m|
  {
    if |list| > 0 { assert list[0] + 2 * DSIZE <= |m|; }
  }

  /**
   * coalesce's two tag writes for the merged block mb, the footer found
   * through the header just written: they land on mb's header and footer.
   */
  lemma TailWrites(s: State, bp: int, mb: Block, list: seq<int>)
    requires var (u, r, total) := Unlink(s, bp);
             r == mb.bp && total == mb.size && |u.mem| == |s.mem| && Linked(u.mem, u.head, list)
    requires mb.size % DSIZE == 0 && mb.size >= BLOCKSIZE && !mb.alloc
    requires FIRST_BP <= mb.bp && End(mb) <= |s.mem|
    ensures var (u, r, total) := Unlink(s, bp);
            var m3 := Put(u.mem, Hdrp(r), Pack(total, 0));
            DSIZE <= r && r + 2 * DSIZE <= |s.mem| && 0 <= u.head && u.head + WSIZE < |s.mem| &&
            0 <= Ftrp(m3, r) < |s.mem| &&
            Put(m3, Ftrp(m3, r), Pack(total, 0)) == u.mem[Header(mb) := Tag(mb)][Footer(mb) := Tag(mb)]
  {
    var (u, r, total) := Unlink(s, bp);
    HeadInRange(u.mem, u.head, list);
    PackRoundTrip(total, 0);
    assert Get(Put(u.mem, Hdrp(r), Pack(total, 0)), Hdrp(r)) == Pack(total, 0);
  }

  /** The cells coalesce reads and writes lie in the region, in every case and at every step. */
  lemma CoalesceInRange(s: State, bs: seq<Block>, fl: seq<int>, k: int)
    requires 0 <= k < |bs| && !bs[k].alloc && Consistent(s.mem, s.brk, s.head, bs, fl, bs[k].bp, NULL)
    ensures CoalesceSafe(s, bs[k].bp)
  {
    var m, brk, bp := s.mem, s.brk, bs[k].bp;
    CoalesceReads(m, bs, brk, s.head, fl, k);
    HeadInRange(m, s.head, fl);
    if LeftFree(bs, k) {
      LeftInRange(s, bs, fl, k);
    }
    if RightFree(bs, k) {
      RightInRange(s, bs, fl, k);
    }
    if LeftFree(bs, k) && RightFree(bs, k) {
      TrackedListed(bs, fl, bp, bp);
      BothUnlinked(s, bs, fl, k);
    }
  }

  /** With a free left neighbour, coalesce can unlink it and it ends where bp's block begins. */
  lemma LeftInRange(s: State, bs: seq<Block>, fl: seq<int>, k: int)
    requires 0 < k < |bs| && Laid(bs, s.brk) && Linked(s.mem, s.head, fl) && bs[k - 1].bp in fl
    ensures Unlinkable(s.mem, bs[k - 1].bp) && DSIZE <= bs[k - 1].bp && bs[k - 1].bp + bs[k - 1].size == bs[k].bp
  {
    Within(bs, s.brk, k - 1);
    Adjacent(bs, s.brk, k);
    var i := Position(fl, bs[k - 1].bp);
    RemoveLinksSound(s.mem, s.brk, s.head, fl, i);
  }

  /** With a free right neighbour, coalesce can unlink it and it ends inside the region. */
  lemma RightInRange(s: State, bs: seq<Block>, fl: seq<int>, k: int)
    requires 0 <= k < |bs| - 1 && Laid(bs, s.brk) && s.brk <= |s.mem| && Linked(s.mem, s.head, fl) && bs[k + 1].bp in fl
    ensures Unlinkable(s.mem, bs[k + 1].bp) && 0 <= bs[k + 1].size && End(bs[k + 1]) <= |s.mem|
  {
    Within(bs, s.brk, k + 1);
    var i := Position(fl, bs[k + 1].bp);
    RemoveLinksSound(s.mem, s.brk, s.head, fl, i);
  }

  /** The merged block is a well-formed free block inside the blocks it replaces. */
  lemma MergedBounds(bs: seq<Block>, brk: int, k: int)
    requires Laid(bs, brk) && 0 <= k < |bs|
    ensures var mb := Merged(bs, k);
            mb.size % DSIZE == 0 && mb.size >= BLOCKSIZE && !mb.alloc && FIRST_BP <= mb.bp && End(mb) <= brk &&
            Header(mb) == Header(bs[Lo(bs, k)]) && Footer(mb) == Footer(bs[Hi(bs, k)])
  {
    MergedSpan(bs, brk, k);
    Within(bs, brk, Lo(bs, k));
    Within(bs, brk, Hi(bs, k));
  }

  /**
   * coalesce on a free block of a consistent heap that is not yet on the
   * free list: the blocks become Coalesced, the list CoalescedFree with the
   * merged block at its head, the heap is consistent again, the merged
   * block is returned, and no allocated payload changes.
   */
  lemma CoalesceEffect(s: State, bs: seq<Block>, fl: seq<int>, k: int)
    requires 0 <= k < |bs| && !bs[k].alloc && Consistent(s.mem, s.brk, s.head, bs, fl, bs[k].bp, NULL)
    ensures var (s', r) := CoalesceStep(s, bs[k].bp);
            s'.brk == s.brk && r == Merged(bs, k).bp && s'.head == r &&
            Consistent(s'.mem, s'.brk, s'.head, Coalesced(bs, k), CoalescedFree(bs, fl, k), NULL, NULL) &&
            PayloadsKept(s.mem, s'.mem, bs, NULL)
  {
    var m, brk, bp := s.mem, s.brk, bs[k].bp;
    CoalesceReads(m, bs, brk, s.head, fl, k);
    CoalesceSound(bs, brk, fl, k);
    Within(bs, brk, k);
    if !LeftFree(bs, k) && !RightFree(bs, k) {
      CoalesceIsolated(bs, fl, k);
      InsertLinksSound(m, brk, s.head, fl, bp);
      assert PayloadsKept(m, m, bs, NULL);
      CoalesceFinish(m, m, InsertLinks(s, bp).mem, bs, bs, brk, bp, [bp] + fl);
    } else {
      MergedTail(s, bs, fl, k);
    }
  }

  /** CoalesceEffect for cases 2 to 4: the tag writes and insert_first after the neighbours are unlinked. */
  lemma MergedTail(s: State, bs: seq<Block>, fl: seq<int>, k: int)
    requires 0 <= k < |bs| && !bs[k].alloc && Consistent(s.mem, s.brk, s.head, bs, fl, bs[k].bp, NULL)
    requires LeftFree(bs, k) || RightFree(bs, k)
    requires !(PrevAllocated(s.mem, bs[k].bp) && NextAllocated(s.mem, bs[k].bp))
    ensures var (s', r) := CoalesceStep(s, bs[k].bp);
            s'.brk == s.brk && r == Merged(bs, k).bp && s'.head == r &&
            Consistent(s'.mem, s'.brk, s'.head, Coalesced(bs, k), CoalescedFree(bs, fl, k), NULL, NULL) &&
            PayloadsKept(s.mem, s'.mem, bs, NULL)
  {
    var m, brk, bp := s.mem, s.brk, bs[k].bp;
    UnlinkSound(s, bs, fl, k);
    var (u, r, total) := Unlink(s, bp);
    var mb := Merged(bs, k);
    MergedBounds(bs, brk, k);
    TailWrites(s, bp, mb, Unlinked(bs, fl, k));
    var m4 := u.mem[Header(mb) := Tag(mb)][Footer(mb) := Tag(mb)];
    CoalesceWrites(m, u.mem, m4, bs, brk, s.head, u.head, fl, k);
    InsertLinksSound(m4, brk, u.head, Unlinked(bs, fl, k), r);
    CoalesceFinish(m, m4, InsertLinks(State(m4, u.brk, u.head), r).mem, bs, Coalesced(bs, k), brk, r,
                   CoalescedFree(bs, fl, k));
  }

  // ---------------------------------------------------------------------
  // place

  /**
   * The first three statements of place on free block k, with a front of
   * `size` bytes: every cell lies in the region, the tags become those of
   * FrontTagged and only link cells change after that, the block is off
   * the free list, and no allocated payload changes.
   */
  lemma TakeFrontSound(s: State, bs: seq<Block>, fl: seq<int>, k: int, size: int)
    requires Laid(bs, s.brk) && s.brk <= |s.mem| && Linked(s.mem, s.head, fl) && Listed(bs, fl)
    requires 0 <= k < |bs| && !bs[k].alloc && bs[k].bp in fl
    requires size % DSIZE == 0 && BLOCKSIZE <= size <= bs[k].size
    ensures TakeSafe(s, bs[k].bp, size) && FIRST_BP <= bs[k].bp && End(bs[k]) <= s.brk
    ensures var u, m2 := TakeFront(s, bs[k].bp, size), FrontTagged(s.mem, bs, k, size);
            Linked(u.mem, u.head, Remove(fl, bs[k].bp)) &&
            TagsAgree(m2, u.mem, bs) && SentinelsAgree(m2, u.mem, bs, s.brk) &&
            u.mem[bs[k].bp + size - DSIZE] == Pack(size, 1) && PayloadsKept(s.mem, u.mem, bs, NULL)
  {
    var bp := bs[k].bp;
    TakeFrontLinks(s, bs, fl, k, size);
    var m2 := FrontTagged(s.mem, bs, k, size);
    var u := TakeFront(s, bp, size);
    LinkChangesKeepTags(m2, u.mem, bs, s.brk, fl);
    CellOutsideLinks(bs, s.brk, fl, k, bp + size - DSIZE);
    TakeFrontPayloads(s, bs, fl, k, size);
  }

  /** The payload half of TakeFrontSound: no allocated block's payload changes. */
  lemma TakeFrontPayloads(s: State, bs: seq<Block>, fl: seq<int>, k: int, size: int)
    requires Laid(bs, s.brk) && s.brk <= |s.mem| && Linked(s.mem, s.head, fl) && Listed(bs, fl)
    requires 0 <= k < |bs| && !bs[k].alloc && bs[k].bp in fl
    requires size % DSIZE == 0 && BLOCKSIZE <= size <= bs[k].size
    ensures PayloadsKept(s.mem, TakeFront(s, bs[k].bp, size).mem, bs, NULL)
  {
    var m, brk, bp := s.mem, s.brk, bs[k].bp;
    TakeFrontLinks(s, bs, fl, k, size);
    var m1 := m[Header(bs[k]) := Pack(size, 1)];
    var m2 := m1[bp + size - DSIZE := Pack(size, 1)];
    var u := TakeFront(s, bp, size);
    WriteKeepsPayloads(m, bs, brk, NULL, k, Header(bs[k]), Pack(size, 1));
    WriteKeepsPayloads(m1, bs, brk, NULL, k, bp + size - DSIZE, Pack(size, 1));
    PayloadsKeptTrans(m, m1, m2, bs, NULL);
    LinkChangesKeepPayloads(m2, u.mem, bs, brk, fl);
    PayloadsKeptTrans(m, m2, u.mem, bs, NULL);
  }

  /** The link half of TakeFrontSound: the two tag writes keep the list, and remove_block then changes only link cells. */
  lemma TakeFrontLinks(s: State, bs: seq<Block>, fl: seq<int>, k: int, size: int)
    requires Laid(bs, s.brk) && s.brk <= |s.mem| && Linked(s.mem, s.head, fl) && Listed(bs, fl)
    requires 0 <= k < |bs| && bs[k].bp in fl
    requires size % DSIZE == 0 && BLOCKSIZE <= size <= bs[k].size
    ensures TakeSafe(s, bs[k].bp, size) && FIRST_BP <= bs[k].bp && End(bs[k]) <= s.brk
    ensures var u, m2 := TakeFront(s, bs[k].bp, size), FrontTagged(s.mem, bs, k, size);
            m2 == s.mem[Header(bs[k]) := Pack(size, 1)][bs[k].bp + size - DSIZE := Pack(size, 1)] &&
            Linked(u.mem, u.head, Remove(fl, bs[k].bp)) && ChangedOnlyLinks(m2, u.mem, fl)
  {
    var bp := bs[k].bp;
    var i := Position(fl, bp);
    FrontKeepsLinked(s, bs, fl, k, size);
    RemoveLinksSound(SetTags(s.mem, bp, size, 1), s.brk, s.head, fl, i);
    RemoveAt(fl, i);
  }

  /** place's two front tag writes are those of FrontTagged, and they keep the list encoding. */
  lemma FrontKeepsLinked(s: State, bs: seq<Block>, fl: seq<int>, k: int, size: int)
    requires Laid(bs, s.brk) && s.brk <= |s.mem| && Linked(s.mem, s.head, fl) && Listed(bs, fl)
    requires 0 <= k < |bs| && bs[k].bp in fl
    requires size % DSIZE == 0 && BLOCKSIZE <= size <= bs[k].size
    ensures TakeSafe(s, bs[k].bp, size) && FIRST_BP <= bs[k].bp && End(bs[k]) <= s.brk
    ensures var m2 := FrontTagged(s.mem, bs, k, size);
            m2 == s.mem[Header(bs[k]) := Pack(size, 1)][bs[k].bp + size - DSIZE := Pack(size, 1)] &&
            Linked(m2, s.head, fl) && SetTags(s.mem, bs[k].bp, size, 1) == m2
  {
    var m, brk, bp := s.mem, s.brk, bs[k].bp;
    Within(bs, brk, k);
    var i := Position(fl, bp);
    EntryUnlinkable(m, s.head, fl, i);
    SetTagsInRange(m, bp, size, 1);
    FrontTagsKeepLinked(m, s.head, fl, bs, brk, k, size);
  }

  /** Rewriting a block's header and a footer inside it leaves the list encoding as it was. */
  lemma FrontTagsKeepLinked(m: seq<int>, head: int, fl: seq<int>, bs: seq<Block>, brk: int, k: int, size: int)
    requires Linked(m, head, fl) && Laid(bs, brk) && Listed(bs, fl) && 0 <= k < |bs|
    requires 0 <= Header(bs[k]) && End(bs[k]) <= |m| && BLOCKSIZE <= size <= bs[k].size
    ensures Linked(m[Header(bs[k]) := Pack(size, 1)][bs[k].bp + size - DSIZE := Pack(size, 1)], head, fl)
  {
    Within(bs, brk, k);
    TagWriteKeepsLinked(m, head, fl, bs, brk, k, Header(bs[k]), Pack(size, 1));
    TagWriteKeepsLinked(m[Header(bs[k]) := Pack(size, 1)], head, fl, bs, brk, k, bs[k].bp + size - DSIZE, Pack(size, 1));
  }

  /** Memory that agrees with m on every tag of bs tags a re-flagged copy of bs as m does. */
  lemma RetaggedAgree(m: seq<int>, m': seq<int>, bs: seq<Block>, k: int, alloc: bool)
    requires 0 <= k < |bs| && Sized(bs[k := bs[k].(alloc := alloc)])
    requires Tagged(m, bs[k := bs[k].(alloc := alloc)], NULL) && TagsAgree(m, m', bs)
    ensures Tagged(m', bs[k := bs[k].(alloc := alloc)], NULL)
  {
    var t := bs[k := bs[k].(alloc := alloc)];
    forall j | 0 <= j < |t|
      ensures 0 <= Header(t[j]) && Footer(t[j]) < |m'| && m'[Header(t[j])] == Tag(t[j])
      ensures t[j].bp != NULL ==> m'[Footer(t[j])] == Tag(t[j])
    {
      assert Header(t[j]) == Header(bs[j]) && Footer(t[j]) == Footer(bs[j]);
    }
  }

  /**
   * place without a split, on free block k of a consistent heap: the whole
   * block becomes allocated and leaves the free list, the heap is
   * consistent, and no allocated payload changes.
   */
  lemma TakeWholeSound(s: State, bs: seq<Block>, fl: seq<int>, k: int)
    requires Consistent(s.mem, s.brk, s.head, bs, fl, NULL, NULL) && 0 <= k < |bs| && !bs[k].alloc
    ensures TakeSafe(s, bs[k].bp, bs[k].size)
    ensures var u, t := TakeFront(s, bs[k].bp, bs[k].size), bs[k := bs[k].(alloc := true)];
            Consistent(u.mem, u.brk, u.head, t, Remove(fl, bs[k].bp), NULL, NULL) &&
            PayloadsKept(s.mem, u.mem, bs, NULL)
  {
    var m, brk, bp, size := s.mem, s.brk, bs[k].bp, bs[k].size;
    var t := bs[k := bs[k].(alloc := true)];
    TrackedListed(bs, fl, NULL, bp);
    InFreeList(bs, brk, fl, k, NULL);
    TakeFrontSound(s, bs, fl, k, size);
    var u := TakeFront(s, bp, size);
    RetagTags(m, bs, brk, k, true, NULL);
    assert AllocBit(t[k]) == 1;
    RetaggedAgree(FrontTagged(m, bs, k, size), u.mem, bs, k, true);
    PlacedWhole(bs, brk, fl, k);
  }

  /**
   * The split branch of place up to the coalesce, on free block k: the
   * front is an allocated block of asize bytes, the remainder a free block
   * of the rest, bp is off the free list, and the heap is consistent except
   * that the remainder is not yet linked in.
   */
  lemma SplitFrontSound(s: State, bs: seq<Block>, fl: seq<int>, k: int, asize: int)
    requires Consistent(s.mem, s.brk, s.head, bs, fl, NULL, NULL) && 0 <= k < |bs| && !bs[k].alloc
    requires asize % DSIZE == 0 && asize >= BLOCKSIZE && Splits(bs[k].size, asize)
    ensures TakeSafe(s, bs[k].bp, asize)
    ensures var u := TakeFront(s, bs[k].bp, asize);
            RestSafe(u, bs[k].bp, Remnant(s, bs[k].bp, asize)) &&
            var (u5, nb) := TagRest(u, bs[k].bp, Remnant(s, bs[k].bp, asize));
            var sp := Split(bs, k, asize, false);
            k + 1 < |sp| && nb == sp[k + 1].bp && !sp[k + 1].alloc &&
            Consistent(u5.mem, u5.brk, u5.head, sp, Remove(fl, bs[k].bp), nb, NULL) &&
            PayloadsKept(s.mem, u5.mem, bs, NULL)
  {
    var m, brk, bp := s.mem, s.brk, bs[k].bp;
    TrackedListed(bs, fl, NULL, bp);
    InFreeList(bs, brk, fl, k, NULL);
    TakeFrontSound(s, bs, fl, k, asize);
    var u := TakeFront(s, bp, asize);
    assert u.mem[Header(bs[k])] == Pack(asize, 1);
    assert Remnant(s, bp, asize) == RestSize(bs[k], asize) by {
      Within(bs, brk, k);
      TagFields(bs[k]);
    }
    RestTagsSound(u, bs, Remove(fl, bp), brk, k, asize);
    var m5 := RestTagged(u.mem, bs, k, asize);
    SplitTags(m, u.mem, bs, brk, k, asize);
    SplitPending(bs, brk, fl, k, asize);
    SplitShape(bs, k, asize, false);
    PayloadsKeptTrans(m, u.mem, m5, bs, NULL);
  }

  /**
   * place's remainder tags on free block k, whose header already says
   * asize: TagRest writes those of RestTagged at bp + asize, keeps the list
   * encoding and changes no allocated payload.
   */
  lemma RestTagsSound(u: State, bs: seq<Block>, fl: seq<int>, brk: int, k: int, asize: int)
    requires Laid(bs, brk) && brk <= |u.mem| && Linked(u.mem, u.head, fl) && Listed(bs, fl)
    requires 0 <= k < |bs| && !bs[k].alloc && FIRST_BP <= bs[k].bp && End(bs[k]) <= brk
    requires asize % DSIZE == 0 && asize >= BLOCKSIZE && Splits(bs[k].size, asize)
    requires u.mem[Header(bs[k])] == Pack(asize, 1)
    ensures RestSafe(u, bs[k].bp, RestSize(bs[k], asize))
    ensures var (u5, nb) := TagRest(u, bs[k].bp, RestSize(bs[k], asize));
            RestSize(bs[k], asize) % DSIZE == 0 && nb == RestBp(bs[k], asize) && u5.brk == u.brk && u5.head == u.head &&
            u5.mem == RestTagged(u.mem, bs, k, asize) && Linked(u5.mem, u.head, fl) &&
            PayloadsKept(u.mem, u5.mem, bs, NULL)
  {
    var bp, rest := bs[k].bp, RestSize(bs[k], asize);
    Within(bs, brk, k);
    PackRoundTrip(asize, 1);
    assert NextBlkp(u.mem, bp) == RestBp(bs[k], asize);
    AlignedDiff(bs[k].size, asize);
    SetTagsInRange(u.mem, bp + asize, rest, 0);
    var m4 := u.mem[bp + asize - WSIZE := Pack(rest, 0)];
    TagWriteKeepsLinked(u.mem, u.head, fl, bs, brk, k, bp + asize - WSIZE, Pack(rest, 0));
    TagWriteKeepsLinked(m4, u.head, fl, bs, brk, k, Footer(bs[k]), Pack(rest, 0));
    WriteKeepsPayloads(u.mem, bs, brk, NULL, k, bp + asize - WSIZE, Pack(rest, 0));
    WriteKeepsPayloads(m4, bs, brk, NULL, k, Footer(bs[k]), Pack(rest, 0));
    PayloadsKeptTrans(u.mem, m4, RestTagged(u.mem, bs, k, asize), bs, NULL);
  }

  /**
   * place(bs[k].bp, asize) on a free block of a consistent heap holding at
   * least asize bytes stays in the region, leaves the heap consistent with
   * the shape Placed and the list PlacedFree, and changes no allocated
   * payload.
   */
  lemma PlaceEffect(s: State, bs: seq<Block>, fl: seq<int>, k: int, asize: int)
    requires Consistent(s.mem, s.brk, s.head, bs, fl, NULL, NULL) && 0 <= k < |bs| && !bs[k].alloc
    requires asize % DSIZE == 0 && BLOCKSIZE <= asize <= bs[k].size
    ensures PlaceSafe(s, bs[k].bp, asize)
    ensures var s' := PlaceStep(s, bs[k].bp, asize);
            s'.brk == s.brk &&
            Consistent(s'.mem, s'.brk, s'.head, Placed(bs, k, asize), PlacedFree(bs, fl, k, asize), NULL, NULL) &&
            PayloadsKept(s.mem, s'.mem, bs, NULL)
  {
    var m, brk, bp := s.mem, s.brk, bs[k].bp;
    Within(bs, brk, k);
    assert m[Header(bs[k])] == Tag(bs[k]);
    TagFields(bs[k]);
    assert GetSize(Get(m, Hdrp(bp))) == bs[k].size;
    assert Remnant(s, bp, asize) == RestSize(bs[k], asize);
    if Splits(bs[k].size, asize) {
      SplitFrontSound(s, bs, fl, k, asize);
      var u := TakeFront(s, bp, asize);
      var (u5, nb) := TagRest(u, bp, Remnant(s, bp, asize));
      var sp, f := Split(bs, k, asize, false), Remove(fl, bp);
      CoalesceInRange(u5, sp, f, k + 1);
      CoalesceEffect(u5, sp, f, k + 1);
      SplitPending(bs, brk, fl, k, asize);
      var s' := PlaceStep(s, bp, asize);
      assert s' == SplitStep(s, bp, asize) == CoalesceStep(u5, nb).0;
      PayloadsKeptBack(u5.mem, s'.mem, bs, sp, brk, NULL);
      PayloadsKeptTrans(m, u5.mem, s'.mem, bs, NULL);
    } else {
      TakeWholeSound(s, bs, fl, k);
    }
  }

  // ---------------------------------------------------------------------
  // find_fit

  /**
   * The free list of a consistent heap can be walked as find_fit walks it:
   * after i steps the header read says free exactly while the entry is
   * still on the list, and the next link leads to the entry after it.
   */
  lemma WalkableList(m: seq<int>, brk: int, head: int, bs: seq<Block>, fl: seq<int>)
    requires Consistent(m, brk, head, bs, fl, NULL, NULL)
    ensures Walkable(m, head, fl)
  {
    forall i | 0 <= i <= |fl|
      ensures WSIZE <= ListAt(fl, i) && ListAt(fl, i) + DSIZE + WSIZE < |m|
      ensures GetAlloc(m[ListAt(fl, i) - WSIZE]) == 0 <==> i < |fl|
      ensures i < |fl| ==> m[ListAt(fl, i) + DSIZE] == ListAt(fl, i + 1)
    {
      FitReads(m, brk, head, bs, fl, i);
    }
  }

  lemma FitReads(m: seq<int>, brk: int, head: int, bs: seq<Block>, fl: seq<int>, i: int)
    requires Consistent(m, brk, head, bs, fl, NULL, NULL) && 0 <= i <= |fl|
    ensures var p := ListAt(fl, i);
            WSIZE <= p && p + DSIZE + WSIZE < |m| &&
            (GetAlloc(m[p - WSIZE]) == 0 <==> i < |fl|) &&
            (i < |fl| ==> m[p + DSIZE] == ListAt(fl, i + 1))
  {
    if i < |fl| {
      LinksOf(m, head, fl, i);
      var k := EntryBlock(m, brk, head, bs, fl, i);
    } else {
      PackRoundTrip(BLOCKSIZE, 1);
    }
  }

  /** The list entry at i is the payload of a free block k, whose header find_fit reads. */
  lemma EntryBlock(m: seq<int>, brk: int, head: int, bs: seq<Block>, fl: seq<int>, i: int) returns (k: int)
    requires Consistent(m, brk, head, bs, fl, NULL, NULL) && 0 <= i < |fl|
    ensures 0 <= k < |bs| && bs[k].bp == fl[i] && !bs[k].alloc
    ensures WSIZE <= Hdrp(fl[i]) < |m| && GetSize(m[Hdrp(fl[i])]) == bs[k].size && GetAlloc(m[Hdrp(fl[i])]) == 0
  {
    assert IsFreeBlock(bs, fl[i]);
    k :| 0 <= k < |bs| && bs[k].bp == fl[i] && !bs[k].alloc;
    Within(bs, brk, k);
    PackRoundTrip(bs[k].size, 0);
  }

  /**
   * find_fit on a consistent heap: it returns NULL exactly when no free
   * block holds asize bytes; otherwise a free block that does, and every
   * entry before it on the list is a free block too small.
   */
  lemma FitEffect(m: seq<int>, brk: int, head: int, bs: seq<Block>, fl: seq<int>, asize: int)
    requires Consistent(m, brk, head, bs, fl, NULL, NULL)
    ensures var r := FitOf(m, fl, asize);
            (r == NULL <==> NoFit(bs, asize)) &&
            (r != NULL ==>
               (exists k :: 0 <= k < |bs| && bs[k].bp == r && !bs[k].alloc && asize <= bs[k].size) &&
               FirstOnList(bs, fl, asize, r))
  {
    var sizes, i := ListSizes(m, fl), FirstFit(ListSizes(m, fl), asize);
    forall j, k | 0 <= j < |fl| && 0 <= k < |bs| && bs[k].bp == fl[j]
      ensures bs[k].size == sizes[j]
    {
      var k' := EntryBlock(m, brk, head, bs, fl, j);
      if k' != k { DistinctBps(bs, brk, k, k'); }
    }
    if i < |fl| {
      var k := EntryBlock(m, brk, head, bs, fl, i);
      assert fl[i] != NULL;
    } else {
      forall k | 0 <= k < |bs| && !bs[k].alloc ensures bs[k].size < asize {
        Within(bs, brk, k);
        var j := Position(fl, bs[k].bp);
      }
    }
  }

  // ---------------------------------------------------------------------
  // extend_heap

  /**
   * extend_heap's writes on a consistent heap that can grow by `size`
   * bytes: the new free block at the old break joins the shape as Grown
   * says, the heap is consistent except that the block is not yet on the
   * free list, and no allocated payload changes.
   */
  lemma GrowSound(s: State, bs: seq<Block>, fl: seq<int>, size: int)
    requires Consistent(s.mem, s.brk, s.head, bs, fl, NULL, NULL)
    requires size % DSIZE == 0 && size >= BLOCKSIZE && s.brk + size <= |s.mem|
    ensures WSIZE <= s.brk
    ensures var g := Grown(bs, s.brk, size);
            |bs| < |g| && g[|bs|] == Block(s.brk, size, false) &&
            Consistent(NewBlockTags(s.mem, s.brk, size), s.brk + size, s.head, g, fl, s.brk, NULL)
    ensures PayloadsKept(s.mem, NewBlockTags(s.mem, s.brk, size), bs, NULL) && KeepsAllocated(bs, Grown(bs, s.brk, size), NULL)
  {
    GrowTags(s.mem, bs, s.brk, size);
    GrownPending(bs, s.brk, fl, size);
    TrackedListed(bs, fl, NULL, NULL);
    GrowKeepsLinked(s.mem, s.head, fl, bs, s.brk, size);
    GrowKeepsPayloads(s.mem, bs, s.brk, size);
  }

  /** extend_heap's three writes lie at or past the old epilogue, outside every link slot. */
  lemma GrowKeepsLinked(m: seq<int>, head: int, fl: seq<int>, bs: seq<Block>, brk: int, size: int)
    requires Linked(m, head, fl) && Laid(bs, brk) && Listed(bs, fl)
    requires size % DSIZE == 0 && size >= BLOCKSIZE && WSIZE <= brk && brk + size <= |m|
    ensures Linked(NewBlockTags(m, brk, size), head, fl)
  {
    NewBlockTagsInRange(m, brk, size);
    var c1, c2, c3 := brk - WSIZE, brk + size - DSIZE, brk + size - WSIZE;
    var m1 := m[c1 := Pack(size, 0)];
    var m2 := m1[c2 := Pack(size, 0)];
    CellBeyondLinks(bs, brk, fl, c1);
    CellBeyondLinks(bs, brk, fl, c2);
    CellBeyondLinks(bs, brk, fl, c3);
    LinkedUnderWrite(m, head, fl, c1, Pack(size, 0));
    LinkedUnderWrite(m1, head, fl, c2, Pack(size, 0));
    LinkedUnderWrite(m2, head, fl, c3, Pack(0, 1));
  }

  /** extend_heap's three writes lie at or past the old epilogue, outside every payload. */
  lemma GrowKeepsPayloads(m: seq<int>, bs: seq<Block>, brk: int, size: int)
    requires Laid(bs, brk) && size % DSIZE == 0 && size >= BLOCKSIZE && WSIZE <= brk && brk + size <= |m|
    ensures PayloadsKept(m, NewBlockTags(m, brk, size), bs, NULL)
  {
    NewBlockTagsInRange(m, brk, size);
    var c1, c2, c3 := brk - WSIZE, brk + size - DSIZE, brk + size - WSIZE;
    var m1 := m[c1 := Pack(size, 0)];
    var m2 := m1[c2 := Pack(size, 0)];
    WriteKeepsPayloads(m, bs, brk, NULL, 0, c1, Pack(size, 0));
    WriteKeepsPayloads(m1, bs, brk, NULL, 0, c2, Pack(size, 0));
    WriteKeepsPayloads(m2, bs, brk, NULL, 0, c3, Pack(0, 1));
    PayloadsKeptTrans(m, m1, m2, bs, NULL);
    PayloadsKeptTrans(m, m2, m2[c3 := Pack(0, 1)], bs, NULL);
  }

  /**
   * extend_heap(words) on a consistent heap: NULL with nothing changed
   * when the region cannot grow by ExtendSize(words) bytes; otherwise the
   * break moves up by that much, the new block is coalesced as Coalesced
   * says, its pointer is returned, the heap is consistent and no allocated
   * payload changes.
   */
  lemma ExtendEffect(s: State, bs: seq<Block>, fl: seq<int>, words: nat)
    requires Consistent(s.mem, s.brk, s.head, bs, fl, NULL, NULL)
    ensures ExtendSafe(s, words)
    ensures var (s', bp) := ExtendStep(s, words);
            var g := Grown(bs, s.brk, ExtendSize(words));
            if s.brk + ExtendSize(words) > |s.mem| then s' == s && bp == NULL
            else
              s'.brk == s.brk + ExtendSize(words) && bp == Merged(g, |bs|).bp && bp != NULL &&
              Consistent(s'.mem, s'.brk, s'.head, Coalesced(g, |bs|), CoalescedFree(g, fl, |bs|), NULL, NULL) &&
              PayloadsKept(s.mem, s'.mem, bs, NULL)
  {
    var size := ExtendSize(words);
    if s.brk + size <= |s.mem| {
      GrowSound(s, bs, fl, size);
      var g, s1 := Grown(bs, s.brk, size), State(NewBlockTags(s.mem, s.brk, size), s.brk + size, s.head);
      assert Grow(s, size) == s1;
      CoalesceInRange(s1, g, fl, |bs|);
      CoalesceEffect(s1, g, fl, |bs|);
      MergedBounds(g, s1.brk, |bs|);
      var (s', bp) := CoalesceStep(s1, s.brk);
      PayloadsKeptBack(s1.mem, s'.mem, bs, g, s.brk, NULL);
      PayloadsKeptTrans(s.mem, s1.mem, s'.mem, bs, NULL);
    }
  }

  // ---------------------------------------------------------------------
  // mm_free

  /**
   * mm_free's tag writes on allocated block k: the block is tagged free as
   * Cleared says, the heap is consistent except that it is not yet on the
   * free list, and no other allocated payload changes.  The block's footer
   * may be stale beforehand (`exempt`, as after mm_realloc's shrink).
   */
  lemma ClearSound(s: State, bs: seq<Block>, fl: seq<int>, k: int, exempt: int)
    requires Consistent(s.mem, s.brk, s.head, bs, fl, NULL, exempt) && 0 <= k < |bs| && bs[k].alloc
    requires exempt == NULL || exempt == bs[k].bp
    ensures var bp, c, s1 := bs[k].bp, Cleared(bs, k), ClearTags(s, bs[k].bp);
            bp != NULL && WSIZE <= bp && GetSize(Get(s.mem, Hdrp(bp))) == bs[k].size && bp + bs[k].size <= |s.mem| &&
            s1.brk == s.brk && s1.head == s.head &&
            Consistent(s1.mem, s1.brk, s1.head, c, fl, bp, NULL) &&
            PayloadsKept(s.mem, s1.mem, bs, bp) && KeepsAllocated(bs, c, bp)
  {
    var m, brk, bp := s.mem, s.brk, bs[k].bp;
    Within(bs, brk, k);
    TagFields(bs[k]);
    assert GetSize(Get(m, Hdrp(bp))) == bs[k].size;
    RetagTags(m, bs, brk, k, false, exempt);
    ClearedPending(bs, brk, fl, k);
    TrackedListed(bs, fl, NULL, NULL);
    ClearKeepsLinked(m, s.head, fl, bs, brk, k);
    ClearKeepsPayloads(m, bs, brk, k);
  }

  /** mm_free's two tag writes on block k lie outside every link slot. */
  lemma ClearKeepsLinked(m: seq<int>, head: int, fl: seq<int>, bs: seq<Block>, brk: int, k: int)
    requires Linked(m, head, fl) && Laid(bs, brk) && Listed(bs, fl) && 0 <= k < |bs| && brk <= |m|
    ensures Linked(SetTags(m, bs[k].bp, bs[k].size, 0), head, fl)
  {
    var bp, size := bs[k].bp, bs[k].size;
    Within(bs, brk, k);
    SetTagsInRange(m, bp, size, 0);
    TagWriteKeepsLinked(m, head, fl, bs, brk, k, Header(bs[k]), Pack(size, 0));
    TagWriteKeepsLinked(m[Header(bs[k]) := Pack(size, 0)], head, fl, bs, brk, k, Footer(bs[k]), Pack(size, 0));
  }

  /** mm_free's two tag writes on block k change no payload but its own. */
  lemma ClearKeepsPayloads(m: seq<int>, bs: seq<Block>, brk: int, k: int)
    requires Laid(bs, brk) && 0 <= k < |bs| && brk <= |m|
    ensures PayloadsKept(m, SetTags(m, bs[k].bp, bs[k].size, 0), bs, bs[k].bp)
  {
    var bp, size := bs[k].bp, bs[k].size;
    Within(bs, brk, k);
    SetTagsInRange(m, bp, size, 0);
    var m1 := m[Header(bs[k]) := Pack(size, 0)];
    WriteKeepsPayloads(m, bs, brk, bp, k, Header(bs[k]), Pack(size, 0));
    WriteKeepsPayloads(m1, bs, brk, bp, k, Footer(bs[k]), Pack(size, 0));
    PayloadsKeptTrans(m, m1, m1[Footer(bs[k]) := Pack(size, 0)], bs, bp);
  }

  /**
   * mm_free on allocated block k of a consistent heap: the block is freed
   * and coalesced as Coalesced(Cleared(bs, k), k) says, the heap is
   * consistent again, and no other allocated payload changes.
   */
  lemma FreeEffect(s: State, bs: seq<Block>, fl: seq<int>, k: int, exempt: int)
    requires Consistent(s.mem, s.brk, s.head, bs, fl, NULL, exempt) && 0 <= k < |bs| && bs[k].alloc
    requires exempt == NULL || exempt == bs[k].bp
    ensures FreeSafe(s, bs[k].bp)
    ensures var s', c := FreeStep(s, bs[k].bp), Cleared(bs, k);
            s'.brk == s.brk && Sound(s', Coalesced(c, k), CoalescedFree(c, fl, k)) &&
            PayloadsKept(s.mem, s'.mem, bs, bs[k].bp)
  {
    var bp, c, s1 := bs[k].bp, Cleared(bs, k), ClearTags(s, bs[k].bp);
    ClearSound(s, bs, fl, k, exempt);
    assert c[k].bp == bp && !c[k].alloc;
    CoalesceInRange(s1, c, fl, k);
    CoalesceEffect(s1, c, fl, k);
    var s' := CoalesceStep(s1, bp).0;
    PayloadsKeptBack(s1.mem, s'.mem, bs, c, s.brk, bp);
    PayloadsKeptTrans(s.mem, s1.mem, s'.mem, bs, bp);
  }

  /**
   * The heap mm_init leaves: a region that ends one minimum block past the
   * first real block and whose last block is free holds exactly that one
   * free block, and the free list names it alone.
   */
  lemma OneFreeBlock(s: State, bs: seq<Block>, fl: seq<int>)
    requires Sound(s, bs, fl) && s.brk == FIRST_BP + BLOCKSIZE
    requires |bs| > 0 && !bs[|bs| - 1].alloc
    ensures bs == [Block(FIRST_BP, BLOCKSIZE, false)] && fl == [FIRST_BP]
  {
    Ordered(bs, s.brk);
    Adjacent(bs, s.brk, 0);
    assert bs[|bs| - 1].bp == FIRST_BP;
    assert FIRST_BP in fl;
    forall i | 0 <= i < |fl| ensures fl[i] == FIRST_BP {
      assert IsFreeBlock(bs, fl[i]);
    }
    assert fl[0] == fl[|fl| - 1];
  }

  /**
   * The stores of mm_realloc's in-place shrink (mm.c lines 205-207) take a
   * sound heap to one consistent with the split shape, in which the
   * remainder's footer is stale (the old block's), and keep every other
   * allocated payload and the front of the shrunk one.
   */
  lemma ShrinkEffect(s: State, bs: seq<Block>, fl: seq<int>, k: int, asize: int)
    requires Sound(s, bs, fl) && 0 <= k < |bs| && bs[k].alloc
    requires asize % DSIZE == 0 && asize >= BLOCKSIZE && Splits(bs[k].size, asize)
    ensures 0 <= Header(bs[k]) && bs[k].bp + asize < |s.mem|
    ensures var m' := ShrunkMem(s.mem, bs, k, asize);
            Consistent(m', s.brk, s.head, Split(bs, k, asize, true), fl, NULL, RestBp(bs[k], asize)) &&
            PayloadsKept(s.mem, m', bs, bs[k].bp) && KeepsPayload(s.mem, m', Block(bs[k].bp, asize, true))
  {
    ShrinkTags(s.mem, bs, s.brk, k, asize);
    ShrunkShape(bs, s.brk, fl, k, asize);
    assert Listed(bs, fl);
    ShrinkKeepsLinked(s.mem, s.head, fl, bs, s.brk, k, asize);
    ShrinkKeepsPayloads(s.mem, bs, s.brk, k, asize);
  }

  /** The shrink's stores fall outside the link cells. */
  lemma ShrinkKeepsLinked(m: seq<int>, head: int, fl: seq<int>, bs: seq<Block>, brk: int, k: int, asize: int)
    requires Linked(m, head, fl) && Laid(bs, brk) && Listed(bs, fl) && brk <= |m| && 0 <= k < |bs|
    requires asize % DSIZE == 0 && asize >= BLOCKSIZE && Splits(bs[k].size, asize)
    ensures 0 <= Header(bs[k]) && bs[k].bp + asize < |m|
    ensures Linked(ShrunkMem(m, bs, k, asize), head, fl)
  {
    var bp := bs[k].bp;
    Within(bs, brk, k);
    var m1 := m[Header(bs[k]) := Pack(asize, 1)];
    var m2 := m1[bp + asize - DSIZE := Pack(asize, 1)];
    TagWriteKeepsLinked(m, head, fl, bs, brk, k, Header(bs[k]), Pack(asize, 1));
    TagWriteKeepsLinked(m1, head, fl, bs, brk, k, bp + asize - DSIZE, Pack(asize, 1));
    TagWriteKeepsLinked(m2, head, fl, bs, brk, k, bp + asize - WSIZE, Pack(bs[k].size - asize, 1));
  }

  /** The shrink's stores land in block k past the front it keeps. */
  lemma ShrinkKeepsPayloads(m: seq<int>, bs: seq<Block>, brk: int, k: int, asize: int)
    requires Laid(bs, brk) && brk <= |m| && 0 <= k < |bs|
    requires asize % DSIZE == 0 && asize >= BLOCKSIZE && Splits(bs[k].size, asize)
    ensures 0 <= Header(bs[k]) && bs[k].bp + asize < |m|
    ensures var m' := ShrunkMem(m, bs, k, asize);
            PayloadsKept(m, m', bs, bs[k].bp) && KeepsPayload(m, m', Block(bs[k].bp, asize, true))
  {
    var bp := bs[k].bp;
    Within(bs, brk, k);
    var m1 := m[Header(bs[k]) := Pack(asize, 1)];
    var m2 := m1[bp + asize - DSIZE := Pack(asize, 1)];
    var m3 := m2[bp + asize - WSIZE := Pack(bs[k].size - asize, 1)];
    WriteKeepsPayloads(m, bs, brk, bp, k, Header(bs[k]), Pack(asize, 1));
    WriteKeepsPayloads(m1, bs, brk, bp, k, bp + asize - DSIZE, Pack(asize, 1));
    WriteKeepsPayloads(m2, bs, brk, bp, k, bp + asize - WSIZE, Pack(bs[k].size - asize, 1));
    PayloadsKeptTrans(m, m1, m2, bs, bp);
    PayloadsKeptTrans(m, m2, m3, bs, bp);
  }

  /**
   * Shrinking block k in place and then freeing the remainder keeps every
   * other allocated block and payload, keeps the front allocated with its
   * payload, and leaves the remainder inside a free block.
   */
  lemma ShrinkThenFree(bs: seq<Block>, fl: seq<int>, r: seq<Block>, brk: int, k: int, asize: int,
                       m0: seq<int>, m1: seq<int>, m2: seq<int>)
    requires Laid(bs, brk) && 0 <= k < |bs| && bs[k].alloc && Tracks(bs, fl, NULL) && NoAdjacentFree(bs, NULL)
    requires asize % DSIZE == 0 && asize >= BLOCKSIZE && Splits(bs[k].size, asize) && |m0| == |m1|
    requires var s := Split(bs, k, asize, true);
             KeepsAllocated(s, r, RestBp(bs[k], asize)) && CoveredByFree(r, s[k + 1]) &&
             PayloadsKept(m1, m2, s, RestBp(bs[k], asize))
    requires PayloadsKept(m0, m1, bs, bs[k].bp) && KeepsPayload(m0, m1, Block(bs[k].bp, asize, true))
    ensures Block(bs[k].bp, asize, true) in r && KeepsAllocated(bs, r, bs[k].bp)
    ensures CoveredByFree(r, Block(RestBp(bs[k], asize), RestSize(bs[k], asize), true))
    ensures PayloadsKept(m0, m2, bs, bs[k].bp) && KeepsPayload(m0, m2, Block(bs[k].bp, asize, true))
  {
    var s := Split(bs, k, asize, true);
    SplitShape(bs, k, asize, true);
    ShrunkShape(bs, brk, fl, k, asize);
    assert s[k] in s;
    ShrinkKeepsAllocated(bs, s, r, brk, k, asize);
    ShrinkPayloadsThrough(bs, s, brk, k, asize, m0, m1, m2);
  }

  /**
   * A store into the payload of an allocated block (as memcpy makes in
   * mm_realloc) touches no tag, no sentinel and no link: the heap stays
   * sound and every other allocated payload is kept.
   */
  lemma PayloadWrite(s: State, bs: seq<Block>, fl: seq<int>, j: int, c: int, v: int)
    requires Sound(s, bs, fl) && 0 <= j < |bs| && bs[j].alloc && bs[j].bp <= c < Footer(bs[j])
    ensures Sound(s.(mem := s.mem[c := v]), bs, fl)
    ensures PayloadsKept(s.mem, s.mem[c := v], bs, bs[j].bp)
  {
    Within(bs, s.brk, j);
    forall i | 0 <= i < |fl| ensures !(fl[i] <= c < fl[i] + 2 * DSIZE) {
      assert IsFreeBlock(bs, fl[i]);
      var j' :| 0 <= j' < |bs| && bs[j'].bp == fl[i] && !bs[j'].alloc;
      Disjoint(bs, s.brk, j, j');
    }
    LinkedUnderWrite(s.mem, s.head, fl, c, v);
    forall i | 0 <= i < |bs| && i != j ensures c < Header(bs[i]) || Footer(bs[i]) < c {
      Disjoint(bs, s.brk, i, j);
    }
    if |bs| > 0 { Within(bs, s.brk, |bs| - 1); }
    WriteKeepsPayloads(s.mem, bs, s.brk, bs[j].bp, j, c, v);
  }
}
