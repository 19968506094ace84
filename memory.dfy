/*
 * The heap invariant over a memory snapshot, what the macros read from a
 * consistent heap, and the boundary-tag writes of each allocator step
 * (mm_free, place, coalesce, extend_heap and the shrinking mm_realloc).
 */
module Memory {
  import opened Layout
  import opened Blocks
  import opened FreeList
  import opened Transitions
  import opened Frames

  /**
   * Snapshot m, break brk and free-list head encode the shape (bs, free):
   * the blocks tile the region, their tags say what they are, the
   * sentinels are in place, the links spell out the list, and the list
   * holds exactly the free blocks with no two free blocks adjacent.
   * `pending` is a free block coalesce has yet to link in; `exempt` is a
   * block whose footer is stale.
   */
  ghost predicate Consistent(m: seq<int>, brk: int, head: int, bs: seq<Block>, free: seq<int>,
                             pending: int, exempt: int)
  {
    Laid(bs, brk) && brk <= |m| && Tagged(m, bs, exempt) && Sentinels(m, bs, brk) &&
    Linked(m, head, free) && Tracks(bs, free, pending) && NoAdjacentFree(bs, pending)
  }

  /**
   * What HDRP, FTRP, PREV_BLKP and NEXT_BLKP find around block k of a
   * consistent heap: its own tags, the left neighbour (or, for the first
   * block, the block itself, because the word before it reads as size 0)
   * and the header after it (the next block's, or the epilogue's).
   */
  lemma NeighbourReads(m: seq<int>, bs: seq<Block>, brk: int, k: int, exempt: int)
    requires Laid(bs, brk) && brk <= |m| && Tagged(m, bs, exempt) && Sentinels(m, bs, brk)
    requires 0 <= k < |bs| && (k > 0 ==> bs[k - 1].bp != exempt)
    ensures var b := bs[k];
            DSIZE <= Header(b) && End(b) <= brk && m[Header(b)] == Tag(b) &&
            (b.bp != exempt ==> m[Footer(b)] == Tag(b)) &&
            m[End(b) - WSIZE] == (if k < |bs| - 1 then Tag(bs[k + 1]) else Pack(0, 1)) &&
            (k == 0 ==> m[b.bp - DSIZE] == 0) &&
            (k > 0 ==> m[b.bp - DSIZE] == Tag(bs[k - 1]) && WSIZE <= Header(bs[k - 1]) &&
                       m[Header(bs[k - 1])] == Tag(bs[k - 1]))
  {
    Within(bs, brk, k);
    Adjacent(bs, brk, k);
    if k > 0 { Within(bs, brk, k - 1); }
    if k < |bs| - 1 { Adjacent(bs, brk, k + 1); }
  }

  /** mm_free and an unsplit place rewrite both tags of block k with a new allocation bit. */
  lemma RetagTags(m: seq<int>, bs: seq<Block>, brk: int, k: int, alloc: bool, exempt: int)
    requires Laid(bs, brk) && brk <= |m| && 0 <= k < |bs| && Tagged(m, bs, exempt) && Sentinels(m, bs, brk)
    requires exempt == NULL || exempt == bs[k].bp
    ensures var t := bs[k := bs[k].(alloc := alloc)];
            var m' := SetTags(m, bs[k].bp, bs[k].size, AllocBit(t[k]));
            Sized(t) && Tagged(m', t, NULL) && Sentinels(m', t, brk)
  {
    var t := bs[k := bs[k].(alloc := alloc)];
    var m' := SetTags(m, bs[k].bp, bs[k].size, AllocBit(t[k]));
    RetaggedLaid(bs, brk, k, alloc);
    Within(bs, brk, k);
    SetTagsInRange(m, bs[k].bp, bs[k].size, AllocBit(t[k]));
    assert m' == m[Header(bs[k]) := Tag(t[k])][Footer(bs[k]) := Tag(t[k])];
    forall j | 0 <= j < |t|
      ensures 0 <= Header(t[j]) && Footer(t[j]) < |m'| && m'[Header(t[j])] == Tag(t[j])
      ensures t[j].bp != NULL ==> m'[Footer(t[j])] == Tag(t[j])
    {
      Within(bs, brk, j);
      if j != k {
        Disjoint(bs, brk, j, k);
        assert t[j] == bs[j];
      }
    }
    assert Tagged(m', t, NULL);
  }

  /** coalesce writes the merged block's header over block Lo's and its footer over block Hi's. */
  lemma MergeTags(m: seq<int>, bs: seq<Block>, brk: int, k: int)
    requires Laid(bs, brk) && brk <= |m| && 0 <= k < |bs| && Tagged(m, bs, NULL) && Sentinels(m, bs, brk)
    ensures var c, mb := Coalesced(bs, k), Merged(bs, k);
            Sized(c) && mb.size % DSIZE == 0 &&
            Footer(bs[Hi(bs, k)]) == Footer(mb) && Header(bs[Lo(bs, k)]) == Header(mb) &&
            var m' := m[Header(bs[Lo(bs, k)]) := Tag(mb)][Footer(bs[Hi(bs, k)]) := Tag(mb)];
            Tagged(m', c, NULL) && Sentinels(m', c, brk)
  {
    var lo, hi := Lo(bs, k), Hi(bs, k);
    CoalescedLaid(bs, brk, k);
    MergedSpan(bs, brk, k);
    CoalescedShape(bs, k);
    Within(bs, brk, lo);
    Within(bs, brk, hi);
    MergedTagged(m, bs, brk, k);
  }

  /** The tagging half of MergeTags: every block of the coalesced shape finds its tags. */
  lemma MergedTagged(m: seq<int>, bs: seq<Block>, brk: int, k: int)
    requires Laid(bs, brk) && brk <= |m| && 0 <= k < |bs| && Tagged(m, bs, NULL)
    ensures var c, mb := Coalesced(bs, k), Merged(bs, k);
            mb.size % DSIZE == 0 && 0 <= Header(bs[Lo(bs, k)]) && Footer(bs[Hi(bs, k)]) < |m| &&
            var m' := m[Header(bs[Lo(bs, k)]) := Tag(mb)][Footer(bs[Hi(bs, k)]) := Tag(mb)];
            Tagged(m', c, NULL)
  {
    var c, lo, hi := Coalesced(bs, k), Lo(bs, k), Hi(bs, k);
    var mb := Merged(bs, k);
    CoalescedLaid(bs, brk, k);
    MergedSpan(bs, brk, k);
    Within(bs, brk, lo);
    Within(bs, brk, hi);
    var m' := m[Header(bs[lo]) := Tag(mb)][Footer(bs[hi]) := Tag(mb)];
    forall j | 0 <= j < |c|
      ensures 0 <= Header(c[j]) && Footer(c[j]) < |m'| && m'[Header(c[j])] == Tag(c[j])
      ensures c[j].bp != NULL ==> m'[Footer(c[j])] == Tag(c[j])
    {
      MergedTagAt(m, bs, brk, k, j);
    }
  }

  /** Block j of the coalesced shape finds its tags once coalesce has written the merged block's. */
  lemma MergedTagAt(m: seq<int>, bs: seq<Block>, brk: int, k: int, j: int)
    requires Laid(bs, brk) && brk <= |m| && 0 <= k < |bs| && Tagged(m, bs, NULL)
    requires 0 <= j < |Coalesced(bs, k)|
    ensures 0 <= Header(bs[Lo(bs, k)]) && Footer(bs[Hi(bs, k)]) < |m|
    ensures var c, mb := Coalesced(bs, k), Merged(bs, k);
            var m' := m[Header(bs[Lo(bs, k)]) := Tag(mb)][Footer(bs[Hi(bs, k)]) := Tag(mb)];
            0 <= Header(c[j]) && Footer(c[j]) < |m'| && m'[Header(c[j])] == Tag(c[j]) && m'[Footer(c[j])] == Tag(c[j])
  {
    var c, lo, hi, d := Coalesced(bs, k), Lo(bs, k), Hi(bs, k), Hi(bs, k) - Lo(bs, k);
    MergedSpan(bs, brk, k);
    CoalescedShape(bs, k);
    Within(bs, brk, lo);
    Within(bs, brk, hi);
    if j != lo {
      var i := if j < lo then j else j + d;
      assert c[j] == bs[i];
      Within(bs, brk, i);
      Disjoint(bs, brk, i, lo);
      Disjoint(bs, brk, i, hi);
    }
  }

  /** A block the split leaves alone lies wholly before or wholly after block k. */
  lemma SplitOther(bs: seq<Block>, brk: int, k: int, asize: int, remAlloc: bool, j: int)
    requires Laid(bs, brk) && 0 <= k < |bs| && 0 <= j < |bs| + 1 && j != k && j != k + 1
    ensures var s, i := Split(bs, k, asize, remAlloc), if j < k then j else j - 1;
            0 <= i < |bs| && i != k && s[j] == bs[i] && DSIZE <= Header(bs[i]) && End(bs[i]) <= brk &&
            (Footer(bs[i]) < Header(bs[k]) || Header(bs[i]) > Footer(bs[k]))
  {
    var i := if j < k then j else j - 1;
    SplitShape(bs, k, asize, remAlloc);
    Within(bs, brk, i);
    Within(bs, brk, k);
    Disjoint(bs, brk, i, k);
  }

  /** Memory once place has written the allocated front's header and footer into free block k. */
  function FrontTagged(m: seq<int>, bs: seq<Block>, k: int, asize: int): (m': seq<int>)
    requires Sized(bs) && 0 <= k < |bs| && 0 <= Header(bs[k]) && bs[k].bp + asize <= |m|
    requires asize % DSIZE == 0 && asize >= DSIZE
    ensures |m'| == |m|
    ensures m'[Header(bs[k])] == Pack(asize, 1) && m'[bs[k].bp + asize - DSIZE] == Pack(asize, 1)
    ensures forall c :: (0 <= c < |m| && c != Header(bs[k]) && c != bs[k].bp + asize - DSIZE) ==>
                        m'[c] == m[c]
  {
    SetTagsInRange(m, bs[k].bp, asize, 1);
    SetTags(m, bs[k].bp, asize, 1)
  }

  /** Memory once place has written the free remainder's header and footer. */
  function RestTagged(m: seq<int>, bs: seq<Block>, k: int, asize: int): (m': seq<int>)
    requires Sized(bs) && 0 <= k < |bs| && 0 <= RestBp(bs[k], asize) - WSIZE && End(bs[k]) <= |m|
    requires asize % DSIZE == 0 && asize < bs[k].size && RestSize(bs[k], asize) % DSIZE == 0
    ensures |m'| == |m|
    ensures m'[bs[k].bp + asize - WSIZE] == Pack(bs[k].size - asize, 0)
    ensures m'[Footer(bs[k])] == Pack(bs[k].size - asize, 0)
    ensures forall c :: (0 <= c < |m| && c != bs[k].bp + asize - WSIZE && c != Footer(bs[k])) ==>
                        m'[c] == m[c]
  {
    SetTagsInRange(m, RestBp(bs[k], asize), RestSize(bs[k], asize), 0);
    SetTags(m, RestBp(bs[k], asize), RestSize(bs[k], asize), 0)
  }

  /**
   * place's tag writes when it splits block k: header and footer of the
   * allocated front, then (after remove_block has changed only link cells
   * of list entries) header and footer of the free remainder.
   */
  lemma SplitTags(m0: seq<int>, m2: seq<int>, bs: seq<Block>, brk: int, k: int, asize: int)
    requires Laid(bs, brk) && brk <= |m0| && 0 <= k < |bs| && !bs[k].alloc
    requires Tagged(m0, bs, NULL) && Sentinels(m0, bs, brk)
    requires asize % DSIZE == 0 && asize >= BLOCKSIZE && Splits(bs[k].size, asize)
    requires FIRST_BP <= bs[k].bp && End(bs[k]) <= brk
    requires TagsAgree(FrontTagged(m0, bs, k, asize), m2, bs)
    requires SentinelsAgree(FrontTagged(m0, bs, k, asize), m2, bs, brk)
    requires m2[bs[k].bp + asize - DSIZE] == Pack(asize, 1)
    ensures (bs[k].size - asize) % DSIZE == 0
    ensures var s := Split(bs, k, asize, false);
            Sized(s) && var m3 := RestTagged(m2, bs, k, asize);
            Tagged(m3, s, NULL) && Sentinels(m3, s, brk)
  {
    var s := Split(bs, k, asize, false);
    AlignedDiff(bs[k].size, asize);
    var m3 := RestTagged(m2, bs, k, asize);
    SplitSized(bs, k, asize, false);
    forall j | 0 <= j < |s|
      ensures 0 <= Header(s[j]) && Footer(s[j]) < |m3| && m3[Header(s[j])] == Tag(s[j])
      ensures s[j].bp != NULL ==> m3[Footer(s[j])] == Tag(s[j])
    {
      SplitTagAt(m0, m2, bs, brk, k, asize, j);
    }
    assert Tagged(m3, s, NULL);
    Within(bs, brk, |bs| - 1);
  }

  lemma SplitTagAt(m0: seq<int>, m2: seq<int>, bs: seq<Block>, brk: int, k: int, asize: int, j: int)
    requires Laid(bs, brk) && brk <= |m0| && 0 <= k < |bs| && !bs[k].alloc && Tagged(m0, bs, NULL)
    requires asize % DSIZE == 0 && asize >= BLOCKSIZE && Splits(bs[k].size, asize)
    requires FIRST_BP <= bs[k].bp && End(bs[k]) <= brk
    requires TagsAgree(FrontTagged(m0, bs, k, asize), m2, bs) && (bs[k].size - asize) % DSIZE == 0
    requires m2[bs[k].bp + asize - DSIZE] == Pack(asize, 1)
    requires 0 <= j < |bs| + 1
    ensures var s, m3 := Split(bs, k, asize, false), RestTagged(m2, bs, k, asize);
            s[j].size % DSIZE == 0 && 0 <= Header(s[j]) && Footer(s[j]) < |m3| &&
            m3[Header(s[j])] == Tag(s[j]) && m3[Footer(s[j])] == Tag(s[j])
  {
    if j == k {
      SplitTagFront(m0, m2, bs, brk, k, asize);
    } else if j == k + 1 {
      SplitTagRest(m0, m2, bs, brk, k, asize);
    } else {
      SplitTagOther(m0, m2, bs, brk, k, asize, j);
    }
  }

  lemma SplitTagFront(m0: seq<int>, m2: seq<int>, bs: seq<Block>, brk: int, k: int, asize: int)
    requires Laid(bs, brk) && brk <= |m0| && 0 <= k < |bs| && !bs[k].alloc && Tagged(m0, bs, NULL)
    requires asize % DSIZE == 0 && asize >= BLOCKSIZE && Splits(bs[k].size, asize)
    requires FIRST_BP <= bs[k].bp && End(bs[k]) <= brk
    requires TagsAgree(FrontTagged(m0, bs, k, asize), m2, bs) && (bs[k].size - asize) % DSIZE == 0
    requires m2[bs[k].bp + asize - DSIZE] == Pack(asize, 1)
    ensures var s, m3 := Split(bs, k, asize, false), RestTagged(m2, bs, k, asize);
            s[k].size % DSIZE == 0 && 0 <= Header(s[k]) && Footer(s[k]) < |m3| &&
            m3[Header(s[k])] == Tag(s[k]) && m3[Footer(s[k])] == Tag(s[k])
  {
    SplitShape(bs, k, asize, false);
  }

  lemma SplitTagRest(m0: seq<int>, m2: seq<int>, bs: seq<Block>, brk: int, k: int, asize: int)
    requires Laid(bs, brk) && brk <= |m0| && 0 <= k < |bs| && !bs[k].alloc && Tagged(m0, bs, NULL)
    requires asize % DSIZE == 0 && asize >= BLOCKSIZE && Splits(bs[k].size, asize)
    requires FIRST_BP <= bs[k].bp && End(bs[k]) <= brk
    requires TagsAgree(FrontTagged(m0, bs, k, asize), m2, bs) && (bs[k].size - asize) % DSIZE == 0
    requires m2[bs[k].bp + asize - DSIZE] == Pack(asize, 1)
    ensures var s, m3 := Split(bs, k, asize, false), RestTagged(m2, bs, k, asize);
            s[k + 1].size % DSIZE == 0 && 0 <= Header(s[k + 1]) && Footer(s[k + 1]) < |m3| &&
            m3[Header(s[k + 1])] == Tag(s[k + 1]) && m3[Footer(s[k + 1])] == Tag(s[k + 1])
  {
    SplitShape(bs, k, asize, false);
  }

  lemma SplitTagOther(m0: seq<int>, m2: seq<int>, bs: seq<Block>, brk: int, k: int, asize: int, j: int)
    requires Laid(bs, brk) && brk <= |m0| && 0 <= k < |bs| && !bs[k].alloc && Tagged(m0, bs, NULL)
    requires asize % DSIZE == 0 && asize >= BLOCKSIZE && Splits(bs[k].size, asize)
    requires FIRST_BP <= bs[k].bp && End(bs[k]) <= brk
    requires TagsAgree(FrontTagged(m0, bs, k, asize), m2, bs) && (bs[k].size - asize) % DSIZE == 0
    requires m2[bs[k].bp + asize - DSIZE] == Pack(asize, 1)
    requires 0 <= j < |bs| + 1 && j != k && j != k + 1
    ensures var s, m3 := Split(bs, k, asize, false), RestTagged(m2, bs, k, asize);
            s[j].size % DSIZE == 0 && 0 <= Header(s[j]) && Footer(s[j]) < |m3| &&
            m3[Header(s[j])] == Tag(s[j]) && m3[Footer(s[j])] == Tag(s[j])
  {
    SplitOther(bs, brk, k, asize, false, j);
  }

  /**
   * extend_heap's writes: the new block's header over the old epilogue, its
   * footer, and a new epilogue after it.
   */
  lemma GrowTags(m: seq<int>, bs: seq<Block>, brk: int, size: int)
    requires Laid(bs, brk) && brk + size <= |m| && Tagged(m, bs, NULL) && Sentinels(m, bs, brk)
    requires size % DSIZE == 0 && size >= BLOCKSIZE
    ensures var g := Grown(bs, brk, size);
            Sized(g) &&
            var m' := NewBlockTags(m, brk, size);
            Tagged(m', g, NULL) && Sentinels(m', g, brk + size)
  {
    var g := Grown(bs, brk, size);
    if |bs| > 0 { Within(bs, brk, |bs| - 1); }
    NewBlockTagsInRange(m, brk, size);
    forall j | 0 <= j < |g| ensures g[j].size >= BLOCKSIZE && g[j].size % DSIZE == 0 {
      if j < |bs| { assert g[j] == bs[j]; }
    }
    forall j | 0 <= j < |bs| ensures g[j] == bs[j] && Footer(bs[j]) < brk - WSIZE {
      Within(bs, brk, j);
    }
  }

  /** The new memory after mm_realloc's in-place shrink of block k to asize bytes. */
  function ShrunkMem(m: seq<int>, bs: seq<Block>, k: int, asize: int): (m': seq<int>)
    requires Sized(bs) && 0 <= k < |bs| && 0 <= Header(bs[k]) && bs[k].bp + asize < |m|
    requires asize % DSIZE == 0 && asize >= DSIZE
    ensures |m'| == |m|
    ensures m'[Header(bs[k])] == Pack(asize, 1) && m'[bs[k].bp + asize - DSIZE] == Pack(asize, 1)
    ensures m'[bs[k].bp + asize - WSIZE] == Pack(bs[k].size - asize, 1)
    ensures forall c :: (0 <= c < |m| && c != Header(bs[k]) && c != bs[k].bp + asize - DSIZE &&
                         c != bs[k].bp + asize - WSIZE) ==> m'[c] == m[c]
  {
    var bp, rest := bs[k].bp, bs[k].size - asize;
    m[Header(bs[k]) := Pack(asize, 1)][bp + asize - DSIZE := Pack(asize, 1)][bp + asize - WSIZE := Pack(rest, 1)]
  }

  /** Block j of the shrunk shape is tagged in the shrunk memory. */
  lemma ShrinkTagAt(m: seq<int>, bs: seq<Block>, brk: int, k: int, asize: int, j: int)
    requires Laid(bs, brk) && brk <= |m| && 0 <= k < |bs| && Tagged(m, bs, NULL)
    requires asize % DSIZE == 0 && asize >= BLOCKSIZE && Splits(bs[k].size, asize)
    requires 0 <= j < |bs| + 1 && FIRST_BP <= bs[k].bp && End(bs[k]) <= brk
    ensures var s, m' := Split(bs, k, asize, true), ShrunkMem(m, bs, k, asize);
            s[j].size % DSIZE == 0 &&
            0 <= Header(s[j]) && Footer(s[j]) < |m'| && m'[Header(s[j])] == Tag(s[j]) &&
            (s[j].bp != bs[k].bp + asize ==> m'[Footer(s[j])] == Tag(s[j]))
  {
    if j == k {
      ShrinkTagFront(m, bs, brk, k, asize);
    } else if j == k + 1 {
      ShrinkTagRest(m, bs, brk, k, asize);
    } else {
      ShrinkTagOther(m, bs, brk, k, asize, j);
    }
  }

  lemma ShrinkTagFront(m: seq<int>, bs: seq<Block>, brk: int, k: int, asize: int)
    requires Laid(bs, brk) && brk <= |m| && 0 <= k < |bs| && Tagged(m, bs, NULL)
    requires asize % DSIZE == 0 && asize >= BLOCKSIZE && Splits(bs[k].size, asize)
    requires FIRST_BP <= bs[k].bp && End(bs[k]) <= brk
    ensures var s, m' := Split(bs, k, asize, true), ShrunkMem(m, bs, k, asize);
            s[k].size % DSIZE == 0 &&
            0 <= Header(s[k]) && Footer(s[k]) < |m'| && m'[Header(s[k])] == Tag(s[k]) &&
            (s[k].bp != bs[k].bp + asize ==> m'[Footer(s[k])] == Tag(s[k]))
  {
    SplitShape(bs, k, asize, true);
  }

  lemma ShrinkTagRest(m: seq<int>, bs: seq<Block>, brk: int, k: int, asize: int)
    requires Laid(bs, brk) && brk <= |m| && 0 <= k < |bs| && Tagged(m, bs, NULL)
    requires asize % DSIZE == 0 && asize >= BLOCKSIZE && Splits(bs[k].size, asize)
    requires FIRST_BP <= bs[k].bp && End(bs[k]) <= brk
    ensures var s, m' := Split(bs, k, asize, true), ShrunkMem(m, bs, k, asize);
            s[k + 1].size % DSIZE == 0 &&
            s[k + 1].bp == bs[k].bp + asize &&
            0 <= Header(s[k + 1]) && Footer(s[k + 1]) < |m'| && m'[Header(s[k + 1])] == Tag(s[k + 1])
  {
    SplitShape(bs, k, asize, true);
  }

  /** A block that the shrink leaves alone keeps its tags. */
  lemma ShrinkTagOther(m: seq<int>, bs: seq<Block>, brk: int, k: int, asize: int, j: int)
    requires Laid(bs, brk) && brk <= |m| && 0 <= k < |bs| && Tagged(m, bs, NULL)
    requires asize % DSIZE == 0 && asize >= BLOCKSIZE && Splits(bs[k].size, asize)
    requires 0 <= j < |bs| + 1 && j != k && j != k + 1 && FIRST_BP <= bs[k].bp && End(bs[k]) <= brk
    ensures var s, m' := Split(bs, k, asize, true), ShrunkMem(m, bs, k, asize);
            s[j].size % DSIZE == 0 &&
            0 <= Header(s[j]) && Footer(s[j]) < |m'| && m'[Header(s[j])] == Tag(s[j]) &&
            (s[j].bp != bs[k].bp + asize ==> m'[Footer(s[j])] == Tag(s[j]))
  {
    SplitOther(bs, brk, k, asize, true, j);
  }

  /**
   * mm_realloc shrinking block k in place: header and footer of the kept
   * front, and the header of the remainder marked allocated; the
   * remainder's footer is the old block's, stale until mm_free rewrites it.
   */
  lemma ShrinkTags(m: seq<int>, bs: seq<Block>, brk: int, k: int, asize: int)
    requires Laid(bs, brk) && brk <= |m| && 0 <= k < |bs| && bs[k].alloc
    requires Tagged(m, bs, NULL) && Sentinels(m, bs, brk)
    requires asize % DSIZE == 0 && asize >= BLOCKSIZE && Splits(bs[k].size, asize)
    ensures var s := Split(bs, k, asize, true);
            Sized(s) && 0 <= Header(bs[k]) && bs[k].bp + asize < |m| &&
            var m' := ShrunkMem(m, bs, k, asize);
            Tagged(m', s, bs[k].bp + asize) && Sentinels(m', s, brk)
  {
    var s := Split(bs, k, asize, true);
    SplitSized(bs, k, asize, true);
    Within(bs, brk, k);
    var m' := ShrunkMem(m, bs, k, asize);
    forall j | 0 <= j < |s|
      ensures 0 <= Header(s[j]) && Footer(s[j]) < |m'| && m'[Header(s[j])] == Tag(s[j])
      ensures s[j].bp != bs[k].bp + asize ==> m'[Footer(s[j])] == Tag(s[j])
    {
      ShrinkTagAt(m, bs, brk, k, asize, j);
    }
    assert Tagged(m', s, bs[k].bp + asize);
    if |bs| > 0 { Within(bs, brk, |bs| - 1); }
  }
}
