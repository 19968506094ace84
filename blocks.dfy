/*
 * The abstract shape of the heap and how each allocator step changes it.
 *
 * Offsets are byte offsets from heap_listp, the start of the region.  The
 * region is laid out as
 *
 *    0  alignment padding
 *    4  prologue header (24 | 1)          8 .. 23  prologue payload
 *   24  prologue footer (24 | 1)         28  first epilogue header (0 | 1)
 *   32 .. 43  words mm_init obtains but never writes (40 is read as a size)
 *   44  header of the first real block   48  its payload
 *   ...                                  brk - 4  epilogue header (0 | 1)
 *
 * A block is described by its payload offset bp, its size and its
 * allocation bit; its header is at bp - 4 and its footer at bp + size - 8.
 * The free list is the sequence of payload offsets from free_listp onwards;
 * it ends at the prologue (offset 8), whose header says "allocated".
 */
module Blocks {
  import opened Layout

  datatype Block = Block(bp: int, size: int, alloc: bool)

  const NULL := 0
  const PROLOGUE_BP := 8    // heap_listp + DSIZE; also the free-list terminator
  const PROLOGUE_HDR := 4
  const PROLOGUE_FTR := 24
  const GAP_WORD := 40      // the word PREV_BLKP reads for the first real block
  const FIRST_BP := 48      // payload of the first real block
  const INIT_SIZE := 48     // 2 * BLOCKSIZE, obtained by mm_init

  function Header(b: Block): int { b.bp - WSIZE }
  function Footer(b: Block): int { b.bp + b.size - DSIZE }
  function End(b: Block): int { b.bp + b.size }
  function AllocBit(b: Block): int { if b.alloc then 1 else 0 }

  /** Where the remainder of b starts, and its size, once its front asize bytes are split off. */
  function RestBp(b: Block, asize: int): int { b.bp + asize }
  function RestSize(b: Block, asize: int): int { b.size - asize }

  function Tag(b: Block): int
  {
    Pack(b.size, AllocBit(b))
  }

  // ---------------------------------------------------------------------
  // The memory macros of mm.c lines 54-73 over a memory snapshot m, where
  // m[p] is the 32-bit word at offset p and an 8-byte link slot at p holds
  // its value in m[p] and zero in m[p + 4].  Outside the region a read
  // gives 0 and a write changes nothing; the allocator's routines are
  // proved never to go there.

  /** GET(p). */
  function Get(m: seq<int>, p: int): int
  {
    if 0 <= p < |m| then m[p] else 0
  }

  /** PUT(p, v): the region keeps its size. */
  function Put(m: seq<int>, p: int, v: int): (m': seq<int>)
    ensures |m'| == |m|
  {
    if 0 <= p < |m| then m[p := v] else m
  }

  function Hdrp(bp: int): int { bp - WSIZE }

  function Ftrp(m: seq<int>, bp: int): int
  {
    bp + GetSize(Get(m, Hdrp(bp))) - DSIZE
  }

  function NextBlkp(m: seq<int>, bp: int): int
  {
    bp + GetSize(Get(m, Hdrp(bp)))
  }

  function PrevBlkp(m: seq<int>, bp: int): int
  {
    bp - GetSize(Get(m, Hdrp(bp) - WSIZE))
  }

  function NextFblkp(m: seq<int>, bp: int): int
  {
    Get(m, bp + DSIZE)
  }

  function PrevFblkp(m: seq<int>, bp: int): int
  {
    Get(m, bp)
  }

  /**
   * The pair of writes `PUT(HDRP(bp), PACK(size, alloc)); PUT(FTRP(bp),
   * PACK(size, alloc))` that mm_free, place and extend_heap make: the
   * header first, then the footer where the new header says the block ends.
   */
  function SetTags(m: seq<int>, bp: int, size: int, alloc: int): (m': seq<int>)
    ensures |m'| == |m|
  {
    var m1 := Put(m, Hdrp(bp), Pack(size, alloc));
    Put(m1, Ftrp(m1, bp), Pack(size, alloc))
  }

  /** Inside the region, SetTags writes the header at bp - 4 and the footer at bp + size - 8 and nothing else. */
  lemma SetTagsInRange(m: seq<int>, bp: int, size: int, alloc: int)
    requires WSIZE <= bp && size % DSIZE == 0 && DSIZE <= size && bp + size <= |m| && 0 <= alloc <= 1
    ensures SetTags(m, bp, size, alloc) == m[bp - WSIZE := Pack(size, alloc)][bp + size - DSIZE := Pack(size, alloc)]
  {
    PackRoundTrip(size, alloc);
    var m1 := Put(m, Hdrp(bp), Pack(size, alloc));
    assert Ftrp(m1, bp) == bp + size - DSIZE;
  }

  /**
   * extend_heap's three writes for a new free block of `size` bytes at bp:
   * its tags, then an epilogue header where the new header says the block
   * ends.
   */
  function NewBlockTags(m: seq<int>, bp: int, size: int): (m': seq<int>)
    ensures |m'| == |m|
  {
    var m2 := SetTags(m, bp, size, 0);
    Put(m2, Hdrp(NextBlkp(m2, bp)), Pack(0, 1))
  }

  /** Inside the region, NewBlockTags writes the header, the footer and the word after the block, and nothing else. */
  lemma NewBlockTagsInRange(m: seq<int>, bp: int, size: int)
    requires WSIZE <= bp && size % DSIZE == 0 && DSIZE <= size && bp + size <= |m|
    ensures NewBlockTags(m, bp, size) ==
            m[bp - WSIZE := Pack(size, 0)][bp + size - DSIZE := Pack(size, 0)][bp + size - WSIZE := Pack(0, 1)]
  {
    SetTagsInRange(m, bp, size, 0);
    PackRoundTrip(size, 0);
    assert NextBlkp(SetTags(m, bp, size, 0), bp) == bp + size;
  }

  // ---------------------------------------------------------------------
  // Invariants of the abstract shape

  /** Block sizes are multiples of 8 of at least the minimum block. */
  ghost predicate Sized(bs: seq<Block>)
  {
    forall k :: 0 <= k < |bs| ==> bs[k].size >= BLOCKSIZE && bs[k].size % DSIZE == 0
  }

  /** Where block k must start: at the first real block for k == 0, else where block k - 1 ends. */
  function StartOf(bs: seq<Block>, k: int): int
    requires 0 <= k < |bs|
  {
    if k == 0 then FIRST_BP else End(bs[k - 1])
  }

  /**
   * The blocks tile the region from the first real block up to brk.  The
   * adjacency facts are triggered by StartOf (see Adjacent), so that they
   * are instantiated only where a neighbour is looked up.
   */
  ghost predicate Laid(bs: seq<Block>, brk: int)
  {
    Sized(bs) &&
    (if |bs| == 0 then brk == FIRST_BP else End(bs[|bs| - 1]) == brk) &&
    forall k {:trigger StartOf(bs, k)} :: 0 <= k < |bs| ==> bs[k].bp == StartOf(bs, k)
  }

  /** Blocks k - 1 and k are both free. */
  ghost predicate BothFree(bs: seq<Block>, k: int)
    requires 0 < k < |bs|
  {
    !bs[k - 1].alloc && !bs[k].alloc
  }

  /** No two neighbouring blocks are both free, except next to `pending`. */
  ghost predicate NoAdjacentFree(bs: seq<Block>, pending: int)
  {
    forall k {:trigger BothFree(bs, k)} :: 0 < k < |bs| && bs[k - 1].bp != pending && bs[k].bp != pending ==>
      !BothFree(bs, k)
  }

  ghost predicate IsFreeBlock(bs: seq<Block>, x: int)
  {
    exists k :: 0 <= k < |bs| && bs[k].bp == x && !bs[k].alloc
  }

  /** x is the payload pointer of an allocated block: what mm_free and mm_realloc may be passed. */
  ghost predicate IsAllocatedBlock(bs: seq<Block>, x: int)
  {
    exists k :: 0 <= k < |bs| && bs[k].bp == x && bs[k].alloc
  }

  /** The index of the allocated block at x. */
  ghost function AllocatedAt(bs: seq<Block>, x: int): (k: int)
    requires IsAllocatedBlock(bs, x)
    ensures 0 <= k < |bs| && bs[k].bp == x && bs[k].alloc
  {
    var k :| 0 <= k < |bs| && bs[k].bp == x && bs[k].alloc; k
  }

  /** The size of the allocated block at x. */
  ghost function SizeAt(bs: seq<Block>, x: int): int
    requires IsAllocatedBlock(bs, x)
  {
    bs[AllocatedAt(bs, x)].size
  }

  /**
   * The free list holds exactly the free blocks, except `pending`, a block
   * whose tags say free but which coalesce has yet to link in.
   */
  ghost predicate Tracks(bs: seq<Block>, free: seq<int>, pending: int)
  {
    (forall i :: 0 <= i < |free| ==> free[i] != pending && IsFreeBlock(bs, free[i])) &&
    (forall k :: 0 <= k < |bs| && !bs[k].alloc && bs[k].bp != pending ==> bs[k].bp in free)
  }

  // ---------------------------------------------------------------------
  // Invariants tying a memory snapshot to the shape

  /** Every block's header (and footer, unless it is `exempt`'s) holds its size and allocation bit. */
  ghost predicate Tagged(m: seq<int>, bs: seq<Block>, exempt: int)
    requires Sized(bs)
  {
    forall k :: 0 <= k < |bs| ==>
      0 <= Header(bs[k]) && Footer(bs[k]) < |m| &&
      m[Header(bs[k])] == Tag(bs[k]) &&
      (bs[k].bp != exempt ==> m[Footer(bs[k])] == Tag(bs[k]))
  }

  /** The prologue, the never-written word before the first block, and the epilogue. */
  ghost predicate Sentinels(m: seq<int>, bs: seq<Block>, brk: int)
  {
    FIRST_BP <= brk <= |m| &&
    m[PROLOGUE_HDR] == Pack(BLOCKSIZE, 1) &&
    m[PROLOGUE_FTR] == Pack(BLOCKSIZE, 1) &&
    m[GAP_WORD] == 0 &&
    (|bs| > 0 ==> m[brk - WSIZE] == Pack(0, 1))
  }

  /** The part of the region not yet handed out by the growth primitive reads as zero. */
  ghost predicate ZeroFrom(m: seq<int>, brk: int)
  {
    forall c :: 0 <= brk <= c < |m| ==> m[c] == 0
  }

  // ---------------------------------------------------------------------
  // Facts about the layout

  /** Block k starts where its left neighbour ends. */
  lemma Adjacent(bs: seq<Block>, brk: int, k: int)
    requires Laid(bs, brk) && 0 <= k < |bs|
    ensures bs[k].bp == StartOf(bs, k)
  {
  }

  /** Blocks are in increasing address order, disjoint, and inside [FIRST_BP, brk). */
  lemma {:induction false} Ordered(bs: seq<Block>, brk: int)
    requires Laid(bs, brk)
    ensures forall j, k :: 0 <= j < k < |bs| ==> End(bs[j]) <= bs[k].bp
    ensures forall k :: 0 <= k < |bs| ==> FIRST_BP <= bs[k].bp && End(bs[k]) <= brk
  {
    if |bs| > 0 {
      var n := |bs| - 1;
      var init := bs[..n];
      Adjacent(bs, brk, n);
      assert Laid(init, bs[n].bp) by {
        forall k | 0 <= k < |init| ensures init[k].bp == StartOf(init, k) {
          Adjacent(bs, brk, k);
          if k > 0 { assert init[k - 1] == bs[k - 1]; }
        }
      }
      Ordered(init, bs[n].bp);
      assert forall j :: 0 <= j < n ==> End(bs[j]) <= bs[n].bp by {
        forall j | 0 <= j < n ensures End(bs[j]) <= bs[n].bp {
          assert init[j] == bs[j];
        }
      }
    }
  }

  /** Two different blocks do not overlap. */
  lemma Disjoint(bs: seq<Block>, brk: int, j: int, k: int)
    requires Laid(bs, brk) && 0 <= j < |bs| && 0 <= k < |bs| && j != k
    ensures End(bs[j]) <= bs[k].bp || End(bs[k]) <= bs[j].bp
  {
    Ordered(bs, brk);
  }

  /** Every block lies between the first real block and brk. */
  lemma Within(bs: seq<Block>, brk: int, k: int)
    requires Laid(bs, brk) && 0 <= k < |bs|
    ensures FIRST_BP <= bs[k].bp && End(bs[k]) <= brk
  {
    Ordered(bs, brk);
  }
}
