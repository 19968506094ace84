/*
 * What coalesce, place, extend_heap and mm_free do to the abstract shape
 * of the heap (the blocks in address order and the free list), and the
 * invariants each step keeps.  The memory-level methods of Allocator are
 * proved to move the shape exactly as these functions say.
 */
module Transitions {
  import opened Layout
  import opened Blocks
  import opened FreeList

  // ---------------------------------------------------------------------
  // coalesce (mm.c lines 346-385)

  /**
   * The left neighbour of block k is a free block.  For the first block
   * PREV_BLKP reads the never-written word before it, finds size 0 and
   * lands on the block itself; the `PREV_BLKP(bp) == bp` guard then counts
   * the left side as allocated.
   */
  predicate LeftFree(bs: seq<Block>, k: int)
    requires 0 <= k < |bs|
  {
    k > 0 && !bs[k - 1].alloc
  }

  /** The right neighbour of block k is a free block; after the last block comes the allocated epilogue. */
  predicate RightFree(bs: seq<Block>, k: int)
    requires 0 <= k < |bs|
  {
    k < |bs| - 1 && !bs[k + 1].alloc
  }

  /** The first and the last block that coalesce merges into one. */
  function Lo(bs: seq<Block>, k: int): int
    requires 0 <= k < |bs|
  {
    if LeftFree(bs, k) then k - 1 else k
  }

  function Hi(bs: seq<Block>, k: int): int
    requires 0 <= k < |bs|
  {
    if RightFree(bs, k) then k + 1 else k
  }

  /** The size coalesce computes: the block's own size plus those of its free neighbours. */
  function MergedSize(bs: seq<Block>, k: int): int
    requires 0 <= k < |bs|
  {
    bs[k].size + (if LeftFree(bs, k) then bs[k - 1].size else 0)
               + (if RightFree(bs, k) then bs[k + 1].size else 0)
  }

  /** The block coalesce returns: it starts at the left neighbour when that one is free. */
  function Merged(bs: seq<Block>, k: int): Block
    requires 0 <= k < |bs|
  {
    Block(bs[Lo(bs, k)].bp, MergedSize(bs, k), false)
  }

  /** The blocks after coalesce(bs[k].bp). */
  function Coalesced(bs: seq<Block>, k: int): seq<Block>
    requires 0 <= k < |bs|
  {
    bs[..Lo(bs, k)] + [Merged(bs, k)] + bs[Hi(bs, k) + 1..]
  }

  /** The free list after coalesce has unlinked the free neighbours it merges. */
  function Unlinked(bs: seq<Block>, free: seq<int>, k: int): seq<int>
    requires 0 <= k < |bs|
  {
    var f := if LeftFree(bs, k) then Remove(free, bs[k - 1].bp) else free;
    if RightFree(bs, k) then Remove(f, bs[k + 1].bp) else f
  }

  /** The free list after coalesce: the merged block is inserted at the head. */
  function CoalescedFree(bs: seq<Block>, free: seq<int>, k: int): seq<int>
    requires 0 <= k < |bs|
  {
    [Merged(bs, k).bp] + Unlinked(bs, free, k)
  }

  // ---------------------------------------------------------------------
  // place (mm.c lines 307-325), extend_heap (275-298), mm_free (157-171)

  /** Block k cut into an allocated block of asize bytes and a remainder with allocation bit remAlloc. */
  function Split(bs: seq<Block>, k: int, asize: int, remAlloc: bool): seq<Block>
    requires 0 <= k < |bs|
  {
    bs[..k] + [Block(bs[k].bp, asize, true), Block(RestBp(bs[k], asize), RestSize(bs[k], asize), remAlloc)]
      + bs[k + 1..]
  }

  /** place splits exactly when the remainder is at least a minimum block. */
  predicate Splits(csize: int, asize: int)
  {
    csize - asize >= BLOCKSIZE
  }

  /**
   * The blocks after place(bs[k].bp, asize): either the front of the block
   * is allocated and the free remainder coalesced, or the whole block is
   * allocated.
   */
  function Placed(bs: seq<Block>, k: int, asize: int): seq<Block>
    requires 0 <= k < |bs|
  {
    if Splits(bs[k].size, asize) then Coalesced(Split(bs, k, asize, false), k + 1)
    else bs[k := bs[k].(alloc := true)]
  }

  /** The free list after place: the block is unlinked, and a split-off remainder coalesced in. */
  function PlacedFree(bs: seq<Block>, free: seq<int>, k: int, asize: int): seq<int>
    requires 0 <= k < |bs|
  {
    var f := Remove(free, bs[k].bp);
    if Splits(bs[k].size, asize) then CoalescedFree(Split(bs, k, asize, false), f, k + 1)
    else f
  }

  /** The blocks once extend_heap has written the new free block at the old brk, before coalescing. */
  function Grown(bs: seq<Block>, brk: int, size: int): seq<Block>
  {
    bs + [Block(brk, size, false)]
  }

  /** Block k with its allocation bit cleared, as mm_free writes it before coalescing. */
  function Cleared(bs: seq<Block>, k: int): seq<Block>
    requires 0 <= k < |bs|
  {
    bs[k := bs[k].(alloc := false)]
  }

  /** The blocks after mm_free of allocated block k: cleared, then coalesced with its free neighbours. */
  function Freed(bs: seq<Block>, k: int): seq<Block>
    requires 0 <= k < |bs|
  {
    Coalesced(Cleared(bs, k), k)
  }

  /** The free list after mm_free of block k: the merged block pushed at the front. */
  function FreedFree(bs: seq<Block>, free: seq<int>, k: int): seq<int>
    requires 0 <= k < |bs|
  {
    CoalescedFree(Cleared(bs, k), free, k)
  }

  /**
   * The blocks after mm_realloc cuts allocated block k down to asize bytes
   * in place: the remainder is freed and coalesced with a free right
   * neighbour, the same shape place leaves when it splits.
   */
  function Shrunk(bs: seq<Block>, k: int, asize: int): seq<Block>
    requires 0 <= k < |bs|
  {
    Coalesced(Split(bs, k, asize, false), k + 1)
  }

  /** The free list after the in-place shrink of block k: the freed remainder pushed at the front. */
  function ShrunkFree(bs: seq<Block>, free: seq<int>, k: int, asize: int): seq<int>
    requires 0 <= k < |bs|
  {
    CoalescedFree(Split(bs, k, asize, false), free, k + 1)
  }

  /** Freeing the allocated remainder of a split leaves the shrunk shape. */
  lemma ShrunkIsFreed(bs: seq<Block>, free: seq<int>, k: int, asize: int)
    requires 0 <= k < |bs|
    ensures var s := Split(bs, k, asize, true);
            Freed(s, k + 1) == Shrunk(bs, k, asize) && FreedFree(s, free, k + 1) == ShrunkFree(bs, free, k, asize)
  {
    assert Cleared(Split(bs, k, asize, true), k + 1) == Split(bs, k, asize, false);
  }

  /**
   * The blocks after mm_malloc finds no fit: extend_heap adds asize bytes
   * at brk, coalesces them with a free last block, and place fills that
   * last block with asize bytes.
   */
  function GrownPlaced(bs: seq<Block>, brk: int, asize: int): seq<Block>
  {
    var g := Grown(bs, brk, asize);
    Placed(Coalesced(g, |bs|), Lo(g, |bs|), asize)
  }

  /** The free list after mm_malloc has grown the heap and placed into the new last block. */
  function GrownPlacedFree(bs: seq<Block>, free: seq<int>, brk: int, asize: int): seq<int>
  {
    var g := Grown(bs, brk, asize);
    PlacedFree(Coalesced(g, |bs|), CoalescedFree(g, free, |bs|), Lo(g, |bs|), asize)
  }

  /** Placing into the merged last block of the grown and coalesced shape is GrownPlaced. */
  lemma GrownPlacedIs(bs: seq<Block>, fl: seq<int>, brk: int, asize: int, c: seq<Block>, cf: seq<int>, k: int)
    requires var g := Grown(bs, brk, asize);
             c == Coalesced(g, |bs|) && cf == CoalescedFree(g, fl, |bs|) && k == Lo(g, |bs|)
    ensures 0 <= k < |c|
    ensures Placed(c, k, asize) == GrownPlaced(bs, brk, asize) && PlacedFree(c, cf, k, asize) == GrownPlacedFree(bs, fl, brk, asize)
  {
  }


  // ---------------------------------------------------------------------
  // First fit (find_fit, mm.c lines 331-341)

  /** The position of the first size of at least asize, or |sizes| when there is none. */
  function FirstFit(sizes: seq<int>, asize: int): (i: int)
    ensures 0 <= i <= |sizes|
    ensures i < |sizes| ==> asize <= sizes[i]
    ensures forall j :: 0 <= j < i ==> sizes[j] < asize
  {
    if |sizes| == 0 then 0
    else if asize <= sizes[0] then 0
    else 1 + FirstFit(sizes[1..], asize)
  }

  /** No free block of bs holds asize bytes, so find_fit returns NULL. */
  ghost predicate NoFit(bs: seq<Block>, asize: int)
  {
    forall k :: 0 <= k < |bs| && !bs[k].alloc ==> bs[k].size < asize
  }

  /** bp is on the free list fl and every block listed before it has fewer than asize bytes: the first fit. */
  ghost predicate FirstOnList(bs: seq<Block>, fl: seq<int>, asize: int, bp: int)
  {
    exists i :: 0 <= i < |fl| && fl[i] == bp &&
      forall j, b :: 0 <= j < i && 0 <= b < |bs| && bs[b].bp == fl[j] ==> bs[b].size < asize
  }

  /** bs', fl' are what place makes of bs, fl when it fills the free block at bp with asize bytes. */
  ghost predicate PlacedAt(bs: seq<Block>, fl: seq<int>, bp: int, asize: int, bs': seq<Block>, fl': seq<int>)
  {
    exists k :: 0 <= k < |bs| && bs[k].bp == bp && !bs[k].alloc &&
      bs' == Placed(bs, k, asize) && fl' == PlacedFree(bs, fl, k, asize)
  }

  /**
   * The shape bs', fl' and break brk' that mm_malloc leaves when it returns
   * bp for the padded size asize: on a fit the break stays and the first
   * fit bp is placed; on a miss the break grows by asize and the grown last
   * block is placed.
   */
  ghost predicate MallocShape(bs: seq<Block>, fl: seq<int>, brk: int, asize: int, bp: int,
                              bs': seq<Block>, fl': seq<int>, brk': int)
  {
    if NoFit(bs, asize) then
      brk' == brk + asize && bs' == GrownPlaced(bs, brk, asize) && fl' == GrownPlacedFree(bs, fl, brk, asize)
    else
      brk' == brk && FirstOnList(bs, fl, asize, bp) && PlacedAt(bs, fl, bp, asize, bs', fl')
  }

  /**
   * The shape that mm_realloc's moving path leaves: mm_malloc's shape for the
   * new block r, then the block at ptr in that shape freed and coalesced.
   */
  ghost predicate MoveShape(bs: seq<Block>, fl: seq<int>, brk: int, asize: int, ptr: int, r: int,
                            bs': seq<Block>, fl': seq<int>, brk': int)
  {
    exists mb: seq<Block>, mfl: seq<int>, i: int :: MallocShape(bs, fl, brk, asize, r, mb, mfl, brk') &&
      0 <= i < |mb| && mb[i].bp == ptr && mb[i].alloc &&
      bs' == Freed(mb, i) && fl' == FreedFree(mb, mfl, i)
  }

  /** mm_malloc's two outcomes, on a fit and on a miss, make up MallocShape. */
  lemma MallocShapeIntro(bs: seq<Block>, fl: seq<int>, brk: int, asize: int, bp: int,
                         bs': seq<Block>, fl': seq<int>, brk': int, fit: bool)
    requires fit <==> !NoFit(bs, asize)
    requires fit ==> brk' == brk && FirstOnList(bs, fl, asize, bp) && PlacedAt(bs, fl, bp, asize, bs', fl')
    requires !fit ==> brk' == brk + asize && bs' == GrownPlaced(bs, brk, asize) && fl' == GrownPlacedFree(bs, fl, brk, asize)
    ensures MallocShape(bs, fl, brk, asize, bp, bs', fl', brk')
  {
  }

  /** Freeing allocated block i at ptr of mm_malloc's shape completes the moving path's shape. */
  lemma MoveShapeIntro(bs: seq<Block>, fl: seq<int>, brk: int, asize: int, ptr: int, r: int,
                       mb: seq<Block>, mfl: seq<int>, brk': int, i: int)
    requires MallocShape(bs, fl, brk, asize, r, mb, mfl, brk')
    requires 0 <= i < |mb| && mb[i].bp == ptr && mb[i].alloc
    ensures MoveShape(bs, fl, brk, asize, ptr, r, Freed(mb, i), FreedFree(mb, mfl, i), brk')
  {
  }

  /** One step of a first-fit walk that has passed i sizes: it stops at i exactly when size i is large enough. */
  lemma FirstFitStep(sizes: seq<int>, asize: int, i: int)
    requires 0 <= i < |sizes| && i <= FirstFit(sizes, asize)
    ensures asize <= sizes[i] ==> FirstFit(sizes, asize) == i
    ensures sizes[i] < asize ==> i + 1 <= FirstFit(sizes, asize)
  {
  }

  // ---------------------------------------------------------------------
  // Lemmas about coalesce

  /** Where each block of the coalesced sequence comes from. */
  lemma CoalescedShape(bs: seq<Block>, k: int)
    requires 0 <= k < |bs|
    ensures var c, lo, d := Coalesced(bs, k), Lo(bs, k), Hi(bs, k) - Lo(bs, k);
            |c| == |bs| - d && c[lo] == Merged(bs, k) &&
            (forall j :: 0 <= j < lo ==> c[j] == bs[j]) &&
            (forall j :: lo < j < |c| ==> c[j] == bs[j + d])
  {
  }

  /** The merged block covers exactly the blocks Lo .. Hi. */
  lemma MergedSpan(bs: seq<Block>, brk: int, k: int)
    requires Laid(bs, brk) && 0 <= k < |bs|
    ensures End(Merged(bs, k)) == End(bs[Hi(bs, k)])
    ensures Merged(bs, k).size >= BLOCKSIZE && Merged(bs, k).size % DSIZE == 0
  {
    if LeftFree(bs, k) { Adjacent(bs, brk, k); }
    if RightFree(bs, k) { Adjacent(bs, brk, k + 1); }
  }

  /** Coalescing keeps the blocks tiling the region. */
  lemma {:induction false} CoalescedLaid(bs: seq<Block>, brk: int, k: int)
    requires Laid(bs, brk) && 0 <= k < |bs|
    ensures Laid(Coalesced(bs, k), brk)
  {
    var c := Coalesced(bs, k);
    CoalescedSizedEnd(bs, brk, k);
    forall j | 0 <= j < |c| ensures c[j].bp == StartOf(c, j) {
      CoalescedStartAt(bs, brk, k, j);
    }
  }

  /** The coalesced blocks keep valid sizes, and the last one still ends at brk. */
  lemma CoalescedSizedEnd(bs: seq<Block>, brk: int, k: int)
    requires Laid(bs, brk) && 0 <= k < |bs|
    ensures Sized(Coalesced(bs, k))
    ensures |Coalesced(bs, k)| > 0 && End(Coalesced(bs, k)[|Coalesced(bs, k)| - 1]) == brk
  {
    var c, lo, hi := Coalesced(bs, k), Lo(bs, k), Hi(bs, k);
    CoalescedShape(bs, k);
    MergedSpan(bs, brk, k);
    forall j | 0 <= j < |c| ensures c[j].size >= BLOCKSIZE && c[j].size % DSIZE == 0 {
      if j > lo { assert c[j] == bs[j + hi - lo]; }
    }
    if hi < |bs| - 1 {
      assert c[|c| - 1] == bs[|bs| - 1];
    }
  }

  /** Block j after coalescing starts where its predecessor ends. */
  lemma CoalescedStartAt(bs: seq<Block>, brk: int, k: int, j: int)
    requires Laid(bs, brk) && 0 <= k < |bs| && 0 <= j < |Coalesced(bs, k)|
    ensures Coalesced(bs, k)[j].bp == StartOf(Coalesced(bs, k), j)
  {
    var c, lo, hi := Coalesced(bs, k), Lo(bs, k), Hi(bs, k);
    var d := hi - lo;
    CoalescedShape(bs, k);
    MergedSpan(bs, brk, k);
    if j < lo {
      Adjacent(bs, brk, j);
      if j > 0 { assert c[j - 1] == bs[j - 1]; }
    } else if j == lo {
      Adjacent(bs, brk, lo);
      if j > 0 { assert c[j - 1] == bs[j - 1]; }
    } else if j == lo + 1 {
      Adjacent(bs, brk, j + d);
    } else {
      Adjacent(bs, brk, j + d);
      assert c[j - 1] == bs[j - 1 + d];
    }
  }

  /** Distinct blocks have distinct payload offsets. */
  lemma DistinctBps(bs: seq<Block>, brk: int, j: int, k: int)
    requires Laid(bs, brk) && 0 <= j < |bs| && 0 <= k < |bs| && j != k
    ensures bs[j].bp != bs[k].bp
    ensures bs[j].bp + BLOCKSIZE <= bs[k].bp || bs[k].bp + BLOCKSIZE <= bs[j].bp
  {
    Disjoint(bs, brk, j, k);
  }

  /**
   * After coalescing, no two neighbouring blocks are free: the merged
   * block's new neighbours were next to a free block already and so are
   * allocated.
   */
  lemma CoalescedNoAdjacentFree(bs: seq<Block>, brk: int, k: int)
    requires Laid(bs, brk) && 0 <= k < |bs| && !bs[k].alloc
    requires NoAdjacentFree(bs, bs[k].bp)
    ensures NoAdjacentFree(Coalesced(bs, k), NULL)
  {
    var c, lo, hi := Coalesced(bs, k), Lo(bs, k), Hi(bs, k);
    var d := hi - lo;
    CoalescedShape(bs, k);
    forall j | 0 < j < |c| && c[j - 1].bp != NULL && c[j].bp != NULL
      ensures !BothFree(c, j)
    {
      if j < lo {
        DistinctBps(bs, brk, j, k);
        DistinctBps(bs, brk, j - 1, k);
        assert !BothFree(bs, j);
      } else if j == lo {
        if LeftFree(bs, k) {
          DistinctBps(bs, brk, j - 1, k);
          DistinctBps(bs, brk, j, k);
          assert !BothFree(bs, j);
        }
      } else if j == lo + 1 {
        if RightFree(bs, k) {
          DistinctBps(bs, brk, j + d, k);
          DistinctBps(bs, brk, j + d - 1, k);
          assert !BothFree(bs, j + d);
        } else {
          assert !bs[k + 1].alloc ==> false;
        }
      } else {
        DistinctBps(bs, brk, j + d, k);
        DistinctBps(bs, brk, j + d - 1, k);
        assert c[j - 1] == bs[j - 1 + d];
        assert !BothFree(bs, j + d);
      }
    }
  }

  /** Membership in the list coalesce leaves after unlinking the neighbours. */
  lemma UnlinkedMembers(bs: seq<Block>, free: seq<int>, k: int, y: int)
    requires 0 <= k < |bs|
    ensures y in Unlinked(bs, free, k) <==>
              y in free && (LeftFree(bs, k) ==> y != bs[k - 1].bp) && (RightFree(bs, k) ==> y != bs[k + 1].bp)
  {
  }

  /**
   * After coalescing, the free list holds exactly the free blocks: the
   * merged block at the head, its absorbed neighbours gone, every other
   * entry kept.
   */
  lemma CoalescedTracks(bs: seq<Block>, brk: int, free: seq<int>, k: int)
    requires Laid(bs, brk) && 0 <= k < |bs| && !bs[k].alloc
    requires Tracks(bs, free, bs[k].bp)
    ensures Tracks(Coalesced(bs, k), CoalescedFree(bs, free, k), NULL)
  {
    CoalescedEntriesFree(bs, brk, free, k);
    CoalescedFreeListed(bs, brk, free, k);
  }

  lemma CoalescedEntriesFree(bs: seq<Block>, brk: int, free: seq<int>, k: int)
    requires Laid(bs, brk) && 0 <= k < |bs| && !bs[k].alloc
    requires Tracks(bs, free, bs[k].bp)
    ensures var c, nf := Coalesced(bs, k), CoalescedFree(bs, free, k);
            forall i :: 0 <= i < |nf| ==> nf[i] != NULL && IsFreeBlock(c, nf[i])
  {
    var c, lo, hi := Coalesced(bs, k), Lo(bs, k), Hi(bs, k);
    var d := hi - lo;
    var nf := CoalescedFree(bs, free, k);
    var u := Unlinked(bs, free, k);
    CoalescedShape(bs, k);
    forall i | 0 <= i < |nf| ensures nf[i] != NULL && IsFreeBlock(c, nf[i]) {
      if i == 0 {
        Within(bs, brk, lo);
        assert c[lo].bp == nf[0] && !c[lo].alloc;
      } else {
        var x := nf[i];
        assert x == u[i - 1];
        UnlinkedMembers(bs, free, k, x);
        var fi :| 0 <= fi < |free| && free[fi] == x;
        var j :| 0 <= j < |bs| && bs[j].bp == x && !bs[j].alloc;
        Within(bs, brk, j);
        if j < lo {
          assert c[j] == bs[j];
        } else {
          assert j != k;
          assert j > hi;
          assert c[j - d] == bs[j];
        }
      }
    }
  }

  lemma CoalescedFreeListed(bs: seq<Block>, brk: int, free: seq<int>, k: int)
    requires Laid(bs, brk) && 0 <= k < |bs| && !bs[k].alloc
    requires Tracks(bs, free, bs[k].bp)
    ensures var c, nf := Coalesced(bs, k), CoalescedFree(bs, free, k);
            forall j :: 0 <= j < |c| && !c[j].alloc && c[j].bp != NULL ==> c[j].bp in nf
  {
    var c, lo, hi := Coalesced(bs, k), Lo(bs, k), Hi(bs, k);
    var d := hi - lo;
    var nf := CoalescedFree(bs, free, k);
    var u := Unlinked(bs, free, k);
    CoalescedShape(bs, k);
    forall j | 0 <= j < |c| && !c[j].alloc && c[j].bp != NULL ensures c[j].bp in nf {
      if j == lo {
        assert nf[0] == c[lo].bp;
      } else {
        var j' := if j < lo then j else j + d;
        assert c[j] == bs[j'];
        assert j' != k && j' != k - 1 && j' != k + 1;
        DistinctBps(bs, brk, j', k);
        if LeftFree(bs, k) { DistinctBps(bs, brk, j', k - 1); }
        if RightFree(bs, k) { DistinctBps(bs, brk, j', k + 1); }
        assert c[j].bp in free;
        UnlinkedMembers(bs, free, k, c[j].bp);
        assert nf == [nf[0]] + u;
      }
    }
  }

  /** A list of distinct blocks' payload offsets is spaced; one more distinct block can go in front. */
  lemma SpacedCons(bs: seq<Block>, brk: int, x: int, list: seq<int>)
    requires Laid(bs, brk) && Spaced(list) && IsFreeBlock(bs, x)
    requires forall i :: 0 <= i < |list| ==> list[i] != x && IsFreeBlock(bs, list[i])
    ensures Spaced([x] + list)
  {
    var r := [x] + list;
    forall a, b | 0 <= a < |r| && 0 <= b < |r| && a != b
      ensures r[a] + 2 * DSIZE <= r[b] || r[b] + 2 * DSIZE <= r[a]
    {
      if a > 0 && b > 0 {
        assert r[a] == list[a - 1] && r[b] == list[b - 1];
      } else {
        var y := if a == 0 then r[b] else r[a];
        assert y in list && y != x by {
          if a == 0 { assert y == list[b - 1]; } else { assert y == list[a - 1]; }
        }
        var i :| 0 <= i < |list| && list[i] == y;
        var jx :| 0 <= jx < |bs| && bs[jx].bp == x && !bs[jx].alloc;
        var jy :| 0 <= jy < |bs| && bs[jy].bp == y && !bs[jy].alloc;
        DistinctBps(bs, brk, jx, jy);
      }
    }
  }

  /** The free list after coalesce keeps its entries apart. */
  lemma CoalescedSpaced(bs: seq<Block>, brk: int, free: seq<int>, k: int)
    requires Laid(bs, brk) && 0 <= k < |bs| && !bs[k].alloc
    requires Tracks(bs, free, bs[k].bp) && Spaced(free)
    ensures Spaced(CoalescedFree(bs, free, k))
  {
    var u := Unlinked(bs, free, k);
    var f := if LeftFree(bs, k) then Remove(free, bs[k - 1].bp) else free;
    if LeftFree(bs, k) { SpacedRemove(free, bs[k - 1].bp); }
    if RightFree(bs, k) { SpacedRemove(f, bs[k + 1].bp); }
    CoalescedLaid(bs, brk, k);
    CoalescedEntriesFree(bs, brk, free, k);
    CoalescedShape(bs, k);
    var nf := CoalescedFree(bs, free, k);
    var c := Coalesced(bs, k);
    forall i | 0 <= i < |u| ensures u[i] != Merged(bs, k).bp && IsFreeBlock(c, u[i]) {
      assert u[i] == nf[i + 1];
      UnlinkedMembers(bs, free, k, u[i]);
    }
    assert IsFreeBlock(c, Merged(bs, k).bp) by {
      assert c[Lo(bs, k)] == Merged(bs, k);
    }
    SpacedCons(c, brk, Merged(bs, k).bp, u);
  }

  /** Every allocated block of bs is still a block of bs', except the one at `except`. */
  ghost predicate KeepsAllocated(bs: seq<Block>, bs': seq<Block>, except: int)
  {
    forall j :: 0 <= j < |bs| && bs[j].alloc && bs[j].bp != except ==> bs[j] in bs'
  }

  /** Coalescing only merges free blocks: every allocated block survives unchanged. */
  lemma CoalescedKeepsAllocated(bs: seq<Block>, k: int)
    requires 0 <= k < |bs| && !bs[k].alloc
    ensures KeepsAllocated(bs, Coalesced(bs, k), NULL)
  {
    var c, lo, hi := Coalesced(bs, k), Lo(bs, k), Hi(bs, k);
    CoalescedShape(bs, k);
    forall j | 0 <= j < |bs| && bs[j].alloc ensures bs[j] in c {
      if j < lo {
        assert c[j] == bs[j];
      } else {
        assert j > hi;
        assert c[j - (hi - lo)] == bs[j];
      }
    }
  }

  /** The coalesced heap keeps its invariants, and the merged block has allocated neighbours. */
  lemma CoalesceSound(bs: seq<Block>, brk: int, free: seq<int>, k: int)
    requires Laid(bs, brk) && 0 <= k < |bs| && !bs[k].alloc
    requires NoAdjacentFree(bs, bs[k].bp) && Tracks(bs, free, bs[k].bp) && Spaced(free)
    ensures var c, lo := Coalesced(bs, k), Lo(bs, k);
            Laid(c, brk) && NoAdjacentFree(c, NULL) && Tracks(c, CoalescedFree(bs, free, k), NULL) &&
            Spaced(CoalescedFree(bs, free, k)) && KeepsAllocated(bs, c, NULL) &&
            End(Merged(bs, k)) == End(bs[Hi(bs, k)]) &&
            (lo > 0 ==> c[lo - 1].alloc) && (lo < |c| - 1 ==> c[lo + 1].alloc)
  {
    CoalescedLaid(bs, brk, k);
    CoalescedNoAdjacentFree(bs, brk, k);
    CoalescedTracks(bs, brk, free, k);
    CoalescedSpaced(bs, brk, free, k);
    CoalescedKeepsAllocated(bs, k);
    MergedSpan(bs, brk, k);
    MergedNeighbours(bs, brk, k);
  }

  /** The blocks on either side of the merged block are allocated. */
  lemma MergedNeighbours(bs: seq<Block>, brk: int, k: int)
    requires Laid(bs, brk) && 0 <= k < |bs| && !bs[k].alloc && NoAdjacentFree(bs, bs[k].bp)
    ensures var c, lo := Coalesced(bs, k), Lo(bs, k);
            (lo > 0 ==> c[lo - 1].alloc) && (lo < |c| - 1 ==> c[lo + 1].alloc)
  {
    var c, lo, hi := Coalesced(bs, k), Lo(bs, k), Hi(bs, k);
    CoalescedShape(bs, k);
    if lo > 0 {
      if LeftFree(bs, k) {
        DistinctBps(bs, brk, k - 2, k);
        DistinctBps(bs, brk, k - 1, k);
        assert !BothFree(bs, k - 1);
      }
    }
    if lo < |c| - 1 {
      assert c[lo + 1] == bs[hi + 1];
      if RightFree(bs, k) {
        DistinctBps(bs, brk, k + 2, k);
        DistinctBps(bs, brk, k + 1, k);
        assert !BothFree(bs, k + 2);
      }
    }
  }

  // ---------------------------------------------------------------------
  // Lemmas about place

  /** Where each block of the split sequence comes from. */
  lemma SplitShape(bs: seq<Block>, k: int, asize: int, remAlloc: bool)
    requires 0 <= k < |bs|
    ensures var s := Split(bs, k, asize, remAlloc);
            |s| == |bs| + 1 &&
            s[k] == Block(bs[k].bp, asize, true) &&
            s[k + 1] == Block(RestBp(bs[k], asize), RestSize(bs[k], asize), remAlloc) &&
            (forall j :: 0 <= j < k ==> s[j] == bs[j]) &&
            (forall j :: k + 1 < j < |s| ==> s[j] == bs[j - 1])
  {
  }

  /** Splitting a block into two valid sizes keeps the blocks tiling the region. */
  lemma SplitLaid(bs: seq<Block>, brk: int, k: int, asize: int, remAlloc: bool)
    requires Laid(bs, brk) && 0 <= k < |bs|
    requires asize % DSIZE == 0 && asize >= BLOCKSIZE && Splits(bs[k].size, asize)
    ensures Laid(Split(bs, k, asize, remAlloc), brk)
  {
    var s := Split(bs, k, asize, remAlloc);
    SplitSized(bs, k, asize, remAlloc);
    SplitShape(bs, k, asize, remAlloc);
    forall j | 0 <= j < |s| ensures s[j].bp == StartOf(s, j) {
      SplitStart(bs, brk, k, asize, remAlloc, j);
    }
    if k < |bs| - 1 {
      assert s[|s| - 1] == bs[|bs| - 1];
    }
  }

  /** Both halves of a split are valid block sizes. */
  lemma SplitSized(bs: seq<Block>, k: int, asize: int, remAlloc: bool)
    requires Sized(bs) && 0 <= k < |bs|
    requires asize % DSIZE == 0 && asize >= BLOCKSIZE && Splits(bs[k].size, asize)
    ensures Sized(Split(bs, k, asize, remAlloc))
  {
    var s := Split(bs, k, asize, remAlloc);
    SplitShape(bs, k, asize, remAlloc);
    forall j | 0 <= j < |s| ensures s[j].size >= BLOCKSIZE && s[j].size % DSIZE == 0 {
      if j < k { assert s[j] == bs[j]; } else if j > k + 1 { assert s[j] == bs[j - 1]; }
    }
  }

  lemma SplitStart(bs: seq<Block>, brk: int, k: int, asize: int, remAlloc: bool, j: int)
    requires Laid(bs, brk) && 0 <= k < |bs| && 0 <= j <= |bs|
    ensures var s := Split(bs, k, asize, remAlloc);
            s[j].bp == StartOf(s, j)
  {
    var s := Split(bs, k, asize, remAlloc);
    SplitShape(bs, k, asize, remAlloc);
    if j <= k {
      Adjacent(bs, brk, j);
      if j > 0 { assert s[j - 1] == bs[j - 1]; }
    } else if j == k + 1 {
    } else if j == k + 2 {
      Adjacent(bs, brk, k + 1);
    } else {
      Adjacent(bs, brk, j - 1);
      assert s[j - 1] == bs[j - 2];
    }
  }

  /**
   * Splitting a free block: with the front allocated and the block off the
   * free list, the heap is consistent except that the free remainder is
   * not yet linked in.
   */
  lemma SplitPending(bs: seq<Block>, brk: int, free: seq<int>, k: int, asize: int)
    requires Laid(bs, brk) && 0 <= k < |bs| && !bs[k].alloc
    requires asize % DSIZE == 0 && asize >= BLOCKSIZE && Splits(bs[k].size, asize)
    requires Tracks(bs, free, NULL) && NoAdjacentFree(bs, NULL)
    ensures var s, rem := Split(bs, k, asize, false), RestBp(bs[k], asize);
            Laid(s, brk) && Tracks(s, Remove(free, bs[k].bp), rem) && NoAdjacentFree(s, rem) &&
            !LeftFree(s, k + 1) && !RightFree(s, k + 1) && KeepsAllocated(bs, s, NULL)
  {
    SplitLaid(bs, brk, k, asize, false);
    SplitTracks(bs, brk, free, k, asize);
    SplitNoAdjacentFree(bs, brk, k, asize);
    var s := Split(bs, k, asize, false);
    SplitShape(bs, k, asize, false);
    forall j | 0 <= j < |bs| && bs[j].alloc ensures bs[j] in s {
      if j < k { assert s[j] == bs[j]; } else { assert s[j + 1] == bs[j]; }
    }
  }

  lemma SplitTracks(bs: seq<Block>, brk: int, free: seq<int>, k: int, asize: int)
    requires Laid(bs, brk) && 0 <= k < |bs| && !bs[k].alloc
    requires asize % DSIZE == 0 && asize >= BLOCKSIZE && Splits(bs[k].size, asize)
    requires Tracks(bs, free, NULL)
    ensures Tracks(Split(bs, k, asize, false), Remove(free, bs[k].bp), RestBp(bs[k], asize))
  {
    var s, rem := Split(bs, k, asize, false), RestBp(bs[k], asize);
    var f := Remove(free, bs[k].bp);
    SplitShape(bs, k, asize, false);
    forall i | 0 <= i < |f| ensures f[i] != rem && IsFreeBlock(s, f[i]) {
      var x := f[i];
      assert x in free && x != bs[k].bp;
      var j :| 0 <= j < |bs| && bs[j].bp == x && !bs[j].alloc;
      Disjoint(bs, brk, j, k);
      if j < k { assert s[j] == bs[j]; } else { assert s[j + 1] == bs[j]; }
    }
    forall j | 0 <= j < |s| && !s[j].alloc && s[j].bp != rem ensures s[j].bp in f {
      var j' := if j < k then j else j - 1;
      assert s[j] == bs[j'] && j' != k;
      Within(bs, brk, j');
      DistinctBps(bs, brk, j', k);
    }
  }

  lemma SplitNoAdjacentFree(bs: seq<Block>, brk: int, k: int, asize: int)
    requires Laid(bs, brk) && 0 <= k < |bs| && !bs[k].alloc
    requires asize % DSIZE == 0 && asize >= BLOCKSIZE && Splits(bs[k].size, asize)
    requires NoAdjacentFree(bs, NULL)
    ensures var s := Split(bs, k, asize, false);
            NoAdjacentFree(s, RestBp(bs[k], asize)) && !LeftFree(s, k + 1) && !RightFree(s, k + 1)
  {
    var s, rem := Split(bs, k, asize, false), RestBp(bs[k], asize);
    SplitShape(bs, k, asize, false);
    forall j | 0 < j < |s| && s[j - 1].bp != rem && s[j].bp != rem ensures !BothFree(s, j) {
      if j < k {
        Within(bs, brk, j - 1);
        Within(bs, brk, j);
        assert !BothFree(bs, j);
      } else if j > k + 2 {
        Within(bs, brk, j - 2);
        Within(bs, brk, j - 1);
        assert s[j - 1] == bs[j - 2];
        assert !BothFree(bs, j - 1);
      }
    }
    if k + 1 < |s| - 1 {
      Within(bs, brk, k);
      Within(bs, brk, k + 1);
      assert !BothFree(bs, k + 1);
    }
  }

  /**
   * The remainder place splits off never merges: its left neighbour was
   * just allocated and its right neighbour was next to a free block.  So
   * the coalesce call in place leaves the split blocks as they are and only
   * links the remainder in at the head.
   */
  lemma SplitRemainderNeverMerges(bs: seq<Block>, brk: int, free: seq<int>, k: int, asize: int)
    requires Laid(bs, brk) && 0 <= k < |bs| && !bs[k].alloc
    requires asize % DSIZE == 0 && asize >= BLOCKSIZE && Splits(bs[k].size, asize)
    requires Tracks(bs, free, NULL) && NoAdjacentFree(bs, NULL)
    ensures var s := Split(bs, k, asize, false);
            Coalesced(s, k + 1) == s &&
            CoalescedFree(s, Remove(free, bs[k].bp), k + 1) == [RestBp(bs[k], asize)] + Remove(free, bs[k].bp)
  {
    var s := Split(bs, k, asize, false);
    SplitNoAdjacentFree(bs, brk, k, asize);
    SplitShape(bs, k, asize, false);
    CoalesceIsolated(s, Remove(free, bs[k].bp), k + 1);
  }

  /** A free block between two allocated ones is left as it is by coalesce and only linked in at the head. */
  lemma CoalesceIsolated(bs: seq<Block>, free: seq<int>, k: int)
    requires 0 <= k < |bs| && !bs[k].alloc && !LeftFree(bs, k) && !RightFree(bs, k)
    ensures Coalesced(bs, k) == bs && CoalescedFree(bs, free, k) == [bs[k].bp] + free
  {
    assert Merged(bs, k) == bs[k];
    assert bs[..k] + [bs[k]] + bs[k + 1..] == bs;
  }

  /** Changing one block's allocation bit keeps the blocks tiling the region. */
  lemma RetaggedLaid(bs: seq<Block>, brk: int, k: int, alloc: bool)
    requires Laid(bs, brk) && 0 <= k < |bs|
    ensures Laid(bs[k := bs[k].(alloc := alloc)], brk)
  {
    var t := bs[k := bs[k].(alloc := alloc)];
    forall j | 0 <= j < |t| ensures t[j].size >= BLOCKSIZE && t[j].size % DSIZE == 0 {
      assert t[j].size == bs[j].size;
    }
    assert Sized(t);
    forall j | 0 <= j < |t| ensures t[j].bp == StartOf(t, j) {
      Adjacent(bs, brk, j);
      if j > 0 { assert End(t[j - 1]) == End(bs[j - 1]); }
    }
  }

  /** place without a split: the whole block becomes allocated and leaves the free list. */
  lemma PlacedWhole(bs: seq<Block>, brk: int, free: seq<int>, k: int)
    requires Laid(bs, brk) && 0 <= k < |bs| && !bs[k].alloc
    requires Tracks(bs, free, NULL) && NoAdjacentFree(bs, NULL)
    ensures var t := bs[k := bs[k].(alloc := true)];
            Laid(t, brk) && Tracks(t, Remove(free, bs[k].bp), NULL) && NoAdjacentFree(t, NULL) &&
            KeepsAllocated(bs, t, NULL)
  {
    var t := bs[k := bs[k].(alloc := true)];
    var f := Remove(free, bs[k].bp);
    RetaggedLaid(bs, brk, k, true);
    forall i | 0 <= i < |f| ensures f[i] != NULL && IsFreeBlock(t, f[i]) {
      var x := f[i];
      assert x in free && x != bs[k].bp;
      var j :| 0 <= j < |bs| && bs[j].bp == x && !bs[j].alloc;
      assert t[j] == bs[j];
    }
    forall j | 0 <= j < |t| && !t[j].alloc && t[j].bp != NULL ensures t[j].bp in f {
      DistinctBps(bs, brk, j, k);
    }
    forall j | 0 < j < |t| && t[j - 1].bp != NULL && t[j].bp != NULL ensures !BothFree(t, j) {
      Within(bs, brk, j - 1);
      Within(bs, brk, j);
      assert !BothFree(bs, j);
    }
    forall j | 0 <= j < |bs| && bs[j].alloc ensures bs[j] in t {
      assert t[j] == bs[j];
    }
  }

  /**
   * place(bs[k].bp, asize) on a free block of at least asize bytes keeps
   * the heap consistent, allocates a block of at least asize bytes at the
   * same offset (exactly asize when it splits), and touches no allocated
   * block.
   */
  lemma PlaceSound(bs: seq<Block>, brk: int, free: seq<int>, k: int, asize: int)
    requires Laid(bs, brk) && 0 <= k < |bs| && !bs[k].alloc
    requires asize % DSIZE == 0 && asize >= BLOCKSIZE && asize <= bs[k].size
    requires Tracks(bs, free, NULL) && NoAdjacentFree(bs, NULL) && Spaced(free)
    ensures var p, pf := Placed(bs, k, asize), PlacedFree(bs, free, k, asize);
            Laid(p, brk) && Tracks(p, pf, NULL) && NoAdjacentFree(p, NULL) && Spaced(pf) &&
            KeepsAllocated(bs, p, NULL) && 0 <= k < |p| &&
            p[k] == Block(bs[k].bp, if Splits(bs[k].size, asize) then asize else bs[k].size, true)
  {
    SpacedRemove(free, bs[k].bp);
    if Splits(bs[k].size, asize) {
      var s := Split(bs, k, asize, false);
      var f := Remove(free, bs[k].bp);
      SplitPending(bs, brk, free, k, asize);
      SplitRemainderNeverMerges(bs, brk, free, k, asize);
      SplitShape(bs, k, asize, false);
      CoalesceSound(s, brk, f, k + 1);
    } else {
      PlacedWhole(bs, brk, free, k);
    }
  }

  // ---------------------------------------------------------------------
  // Lemmas about extend_heap and mm_free

  /** The block extend_heap writes at the old brk leaves the heap consistent except that it is not yet coalesced. */
  lemma GrownPending(bs: seq<Block>, brk: int, free: seq<int>, size: int)
    requires Laid(bs, brk) && size % DSIZE == 0 && size >= BLOCKSIZE
    requires Tracks(bs, free, NULL) && NoAdjacentFree(bs, NULL)
    ensures var g := Grown(bs, brk, size);
            Laid(g, brk + size) && Tracks(g, free, brk) && NoAdjacentFree(g, brk) &&
            KeepsAllocated(bs, g, NULL) && g[|bs|] == Block(brk, size, false)
  {
    var g := Grown(bs, brk, size);
    forall j | 0 <= j < |g| ensures g[j].size >= BLOCKSIZE && g[j].size % DSIZE == 0 {
      if j < |bs| { assert g[j] == bs[j]; }
    }
    assert Sized(g);
    forall j | 0 <= j < |g| ensures g[j].bp == StartOf(g, j) {
      if j < |bs| {
        Adjacent(bs, brk, j);
        if j > 0 { assert g[j - 1] == bs[j - 1]; }
      } else if j > 0 {
        assert g[j - 1] == bs[|bs| - 1];
      }
    }
    forall i | 0 <= i < |free| ensures free[i] != brk && IsFreeBlock(g, free[i]) {
      var j :| 0 <= j < |bs| && bs[j].bp == free[i] && !bs[j].alloc;
      Within(bs, brk, j);
      assert g[j] == bs[j];
    }
    forall j | 0 <= j < |g| && !g[j].alloc && g[j].bp != brk ensures g[j].bp in free {
      assert j < |bs|;
      assert g[j] == bs[j];
      Within(bs, brk, j);
    }
    forall j | 0 < j < |g| && g[j - 1].bp != brk && g[j].bp != brk ensures !BothFree(g, j) {
      assert j < |bs|;
      assert g[j] == bs[j] && g[j - 1] == bs[j - 1];
      Within(bs, brk, j - 1);
      Within(bs, brk, j);
      assert !BothFree(bs, j);
    }
    forall j | 0 <= j < |bs| && bs[j].alloc ensures bs[j] in g {
      assert g[j] == bs[j];
    }
  }

  /** mm_free's tag writes leave the heap consistent except that the freed block is not yet coalesced. */
  lemma ClearedPending(bs: seq<Block>, brk: int, free: seq<int>, k: int)
    requires Laid(bs, brk) && 0 <= k < |bs| && bs[k].alloc
    requires Tracks(bs, free, NULL) && NoAdjacentFree(bs, NULL)
    ensures var c := Cleared(bs, k);
            Laid(c, brk) && Tracks(c, free, bs[k].bp) && NoAdjacentFree(c, bs[k].bp) &&
            KeepsAllocated(bs, c, bs[k].bp)
  {
    var c := Cleared(bs, k);
    RetaggedLaid(bs, brk, k, false);
    forall i | 0 <= i < |free| ensures free[i] != bs[k].bp && IsFreeBlock(c, free[i]) {
      var j :| 0 <= j < |bs| && bs[j].bp == free[i] && !bs[j].alloc;
      DistinctBps(bs, brk, j, k);
      assert c[j] == bs[j];
    }
    forall j | 0 <= j < |c| && !c[j].alloc && c[j].bp != bs[k].bp ensures c[j].bp in free {
      Within(bs, brk, j);
    }
    forall j | 0 < j < |c| && c[j - 1].bp != bs[k].bp && c[j].bp != bs[k].bp ensures !BothFree(c, j) {
      Within(bs, brk, j - 1);
      Within(bs, brk, j);
      assert !BothFree(bs, j);
    }
    forall j | 0 <= j < |bs| && bs[j].alloc && bs[j].bp != bs[k].bp ensures bs[j] in c {
      assert c[j] == bs[j];
    }
  }

  /**
   * After extend_heap, the block it returns is the last block, free, and
   * holds at least the bytes the heap grew by (more when it merged with a
   * free block before the old break), and every allocated block survives.
   */
  lemma GrownTail(bs: seq<Block>, brk: int, size: int)
    requires Sized(bs) && size >= 0
    ensures var g := Grown(bs, brk, size);
            var c, mb := Coalesced(g, |bs|), Merged(g, |bs|);
            |c| > 0 && c[|c| - 1] == mb && !mb.alloc && mb.size >= size && KeepsAllocated(bs, c, NULL)
  {
    var g := Grown(bs, brk, size);
    CoalescedShape(g, |bs|);
    assert !RightFree(g, |bs|);
    if LeftFree(g, |bs|) {
      assert g[|bs| - 1] == bs[|bs| - 1];
    }
    CoalescedKeepsAllocated(g, |bs|);
    forall j | 0 <= j < |bs| && bs[j].alloc ensures bs[j] in Coalesced(g, |bs|) {
      assert g[j] == bs[j];
    }
  }

  /** Some free block of bs spans b, from b's payload start to its end. */
  ghost predicate CoveredByFree(bs: seq<Block>, b: Block)
  {
    exists j :: 0 <= j < |bs| && !bs[j].alloc && bs[j].bp <= b.bp && End(b) <= End(bs[j])
  }

  /**
   * What mm_free does to the shape: the block it frees is no longer
   * allocated and lies inside a free block (itself, or the block it was
   * merged into), and every other allocated block survives unchanged.
   */
  lemma FreedShape(bs: seq<Block>, brk: int, k: int)
    requires Laid(bs, brk) && 0 <= k < |bs| && bs[k].alloc
    ensures var r := Coalesced(Cleared(bs, k), k);
            KeepsAllocated(bs, r, bs[k].bp) && !IsAllocatedBlock(r, bs[k].bp) && CoveredByFree(r, bs[k])
  {
    var c := Cleared(bs, k);
    var r, lo, hi := Coalesced(c, k), Lo(c, k), Hi(c, k);
    RetaggedLaid(bs, brk, k, false);
    CoalescedShape(c, k);
    MergedSpan(c, brk, k);
    CoalescedKeepsAllocated(c, k);
    if lo < k {
      Adjacent(c, brk, k);
    }
    if hi > k {
      Adjacent(c, brk, hi);
    }
    assert r[lo].bp <= bs[k].bp && End(bs[k]) <= End(r[lo]);
    forall j | 0 <= j < |bs| && bs[j].alloc && bs[j].bp != bs[k].bp ensures bs[j] in r {
      assert c[j] == bs[j];
    }
    forall i | 0 <= i < |r| && r[i].alloc ensures r[i].bp != bs[k].bp {
      var d := hi - lo;
      var j := if i < lo then i else i + d;
      assert r[i] == c[j] && j != k;
      DistinctBps(bs, brk, j, k);
    }
  }

  /** Allocated blocks that survive two steps survive their composition. */
  lemma KeepsAllocatedTrans(a: seq<Block>, b: seq<Block>, c: seq<Block>, brk: int, except: int)
    requires KeepsAllocated(a, b, except) && KeepsAllocated(b, c, NULL) && Laid(b, brk)
    ensures KeepsAllocated(a, c, except)
  {
    forall j | 0 <= j < |a| && a[j].alloc && a[j].bp != except ensures a[j] in c {
      var i :| 0 <= i < |b| && b[i] == a[j];
      Within(b, brk, i);
    }
  }

  /**
   * mm_realloc's in-place shrink of allocated block k: both halves of the
   * split are allocated, so no block becomes free and no two free blocks
   * become neighbours; every other allocated block is kept.
   */
  lemma ShrunkShape(bs: seq<Block>, brk: int, free: seq<int>, k: int, asize: int)
    requires Laid(bs, brk) && 0 <= k < |bs| && bs[k].alloc
    requires asize % DSIZE == 0 && asize >= BLOCKSIZE && Splits(bs[k].size, asize)
    requires Tracks(bs, free, NULL) && NoAdjacentFree(bs, NULL)
    ensures var s := Split(bs, k, asize, true);
            Laid(s, brk) && Tracks(s, free, NULL) && NoAdjacentFree(s, NULL) &&
            KeepsAllocated(bs, s, bs[k].bp)
  {
    var s := Split(bs, k, asize, true);
    SplitLaid(bs, brk, k, asize, true);
    SplitShape(bs, k, asize, true);
    forall i | 0 <= i < |free| ensures IsFreeBlock(s, free[i]) {
      var j :| 0 <= j < |bs| && bs[j].bp == free[i] && !bs[j].alloc;
      if j < k { assert s[j] == bs[j]; } else { assert s[j + 1] == bs[j]; }
    }
    forall j | 0 <= j < |s| && !s[j].alloc ensures s[j].bp in free {
      var j' := if j < k then j else j - 1;
      assert s[j] == bs[j'];
      Within(bs, brk, j');
    }
    forall j | 0 < j < |s| ensures !BothFree(s, j) {
      if j < k {
        Within(bs, brk, j - 1);
        Within(bs, brk, j);
        assert !BothFree(bs, j);
      } else if j > k + 2 {
        Within(bs, brk, j - 2);
        Within(bs, brk, j - 1);
        assert s[j - 1] == bs[j - 2];
        assert !BothFree(bs, j - 1);
      }
    }
    forall j | 0 <= j < |bs| && bs[j].alloc && bs[j].bp != bs[k].bp ensures bs[j] in s {
      if j < k { assert s[j] == bs[j]; } else { assert s[j + 1] == bs[j]; }
    }
  }

  /**
   * Allocated blocks kept through the shrink and through freeing the
   * remainder are kept through both: no block other than k covers the
   * remainder's start.
   */
  lemma ShrinkKeepsAllocated(bs: seq<Block>, s: seq<Block>, r: seq<Block>, brk: int, k: int, asize: int)
    requires Laid(bs, brk) && 0 <= k < |bs| && asize >= BLOCKSIZE && Splits(bs[k].size, asize)
    requires KeepsAllocated(bs, s, bs[k].bp) && KeepsAllocated(s, r, RestBp(bs[k], asize))
    ensures KeepsAllocated(bs, r, bs[k].bp)
  {
    forall j | 0 <= j < |bs| && bs[j].alloc && bs[j].bp != bs[k].bp ensures bs[j] in r {
      Disjoint(bs, brk, j, k);
    }
  }

  /** A free block's payload offset is no allocated block's. */
  lemma FreeNotAllocated(bs: seq<Block>, brk: int, k: int)
    requires Laid(bs, brk) && 0 <= k < |bs| && !bs[k].alloc
    ensures !IsAllocatedBlock(bs, bs[k].bp)
  {
    forall j | 0 <= j < |bs| && bs[j].alloc ensures bs[j].bp != bs[k].bp {
      DistinctBps(bs, brk, j, k);
    }
  }

  /**
   * A block that is free after a step keeping every allocated block was not
   * allocated before it.
   */
  lemma FreshBlock(bs: seq<Block>, c: seq<Block>, brk: int, brk': int, k: int)
    requires Laid(bs, brk) && Laid(c, brk') && KeepsAllocated(bs, c, NULL) && 0 <= k < |c| && !c[k].alloc
    ensures !IsAllocatedBlock(bs, c[k].bp)
  {
    FreeNotAllocated(c, brk', k);
    forall j | 0 <= j < |bs| && bs[j].alloc ensures bs[j].bp != c[k].bp {
      Within(bs, brk, j);
      assert bs[j] in c;
    }
  }

  /**
   * mm_malloc's search and growth both fail: no free block holds asize
   * bytes and the region cannot grow by asize bytes past brk.
   */
  ghost predicate NoRoom(bs: seq<Block>, brk: int, capacity: int, asize: int)
  {
    NoFit(bs, asize) && brk + asize > capacity
  }

  /** A step keeping every allocated block, then one keeping all but `except`, keep all but `except`. */
  lemma KeepsAllocatedThen(a: seq<Block>, b: seq<Block>, c: seq<Block>, brk: int, except: int)
    requires Laid(a, brk) && KeepsAllocated(a, b, NULL) && KeepsAllocated(b, c, except)
    ensures KeepsAllocated(a, c, except)
  {
    forall j | 0 <= j < |a| && a[j].alloc && a[j].bp != except ensures a[j] in c {
      Within(a, brk, j);
      assert a[j] in b;
    }
  }
}
