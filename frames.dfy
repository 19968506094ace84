/*
 * Which cells of the region each kind of write may touch.  The allocator
 * writes two kinds of cells: boundary tags (headers, footers, the
 * epilogue) and free-list links (the first 16 bytes of a free block's
 * payload, and the prologue's previous link).  These lemmas show that a
 * write of one kind leaves the facts that depend on the other kind, on
 * the sentinels and on allocated payloads intact.
 */
module Frames {
  import opened Layout
  import opened Blocks
  import opened FreeList
  import Transitions

  /** Every entry of the list is the payload offset of a free block of bs. */
  ghost predicate Listed(bs: seq<Block>, list: seq<int>)
  {
    forall i :: 0 <= i < |list| ==> IsFreeBlock(bs, list[i])
  }

  /** The payload cells of b (from bp up to its footer) hold the same words in m and m'. */
  ghost predicate KeepsPayload(m: seq<int>, m': seq<int>, b: Block)
  {
    |m'| == |m| &&
    forall c :: b.bp <= c < Footer(b) && 0 <= c < |m| ==> m'[c] == m[c]
  }

  /** Every allocated block of bs, except the one at `except`, keeps its payload. */
  ghost predicate PayloadsKept(m: seq<int>, m': seq<int>, bs: seq<Block>, except: int)
  {
    forall b :: b in bs && b.alloc && b.bp != except ==> KeepsPayload(m, m', b)
  }

  /** A header, or a cell of a block at least 16 bytes past its payload start, is not a link cell. */
  lemma CellOutsideLinks(bs: seq<Block>, brk: int, list: seq<int>, j: int, c: int)
    requires Laid(bs, brk) && Listed(bs, list) && 0 <= j < |bs|
    requires c == Header(bs[j]) || bs[j].bp + 2 * DSIZE <= c < End(bs[j])
    ensures !InLinkArea(list, c)
  {
    Within(bs, brk, j);
    forall i | 0 <= i < |list| ensures !(list[i] <= c < list[i] + 2 * DSIZE) {
      var j' :| 0 <= j' < |bs| && bs[j'].bp == list[i] && !bs[j'].alloc;
      if j' != j { Disjoint(bs, brk, j, j'); }
    }
  }

  /** Cells from the last block's end tag onwards are not link cells. */
  lemma CellBeyondLinks(bs: seq<Block>, brk: int, list: seq<int>, c: int)
    requires Laid(bs, brk) && Listed(bs, list) && c >= brk - WSIZE
    ensures !InLinkArea(list, c)
  {
    if |bs| > 0 { Within(bs, brk, |bs| - 1); }
    forall i | 0 <= i < |list| ensures !(list[i] <= c < list[i] + 2 * DSIZE) {
      assert IsFreeBlock(bs, list[i]);
      var j' :| 0 <= j' < |bs| && bs[j'].bp == list[i] && !bs[j'].alloc;
      Within(bs, brk, j');
    }
  }

  /** The prologue tags, the gap word and the epilogue are not link cells. */
  lemma SentinelsOutsideLinks(bs: seq<Block>, brk: int, list: seq<int>)
    requires Laid(bs, brk) && Listed(bs, list)
    ensures !InLinkArea(list, PROLOGUE_HDR) && !InLinkArea(list, PROLOGUE_FTR) && !InLinkArea(list, GAP_WORD)
    ensures |bs| > 0 ==> !InLinkArea(list, brk - WSIZE)
  {
    forall i | 0 <= i < |list| ensures FIRST_BP <= list[i] {
      assert IsFreeBlock(bs, list[i]);
      var j' :| 0 <= j' < |bs| && bs[j'].bp == list[i] && !bs[j'].alloc;
      Within(bs, brk, j');
    }
    if |bs| > 0 { CellBeyondLinks(bs, brk, list, brk - WSIZE); }
  }

  /** A write outside the link cells keeps the list encoding. */
  lemma TagWriteKeepsLinked(m: seq<int>, head: int, list: seq<int>, bs: seq<Block>, brk: int,
                            j: int, c: int, v: int)
    requires Linked(m, head, list) && Laid(bs, brk) && Listed(bs, list) && 0 <= j < |bs| && 0 <= c < |m|
    requires c == Header(bs[j]) || bs[j].bp + 2 * DSIZE <= c < End(bs[j])
    ensures Linked(m[c := v], head, list)
  {
    CellOutsideLinks(bs, brk, list, j, c);
    Within(bs, brk, j);
    LinkedUnderWrite(m, head, list, c, v);
  }

  /** m and m' agree on every header and footer of bs. */
  ghost predicate TagsAgree(m: seq<int>, m': seq<int>, bs: seq<Block>)
  {
    |m'| == |m| &&
    forall j :: 0 <= j < |bs| && 0 <= Header(bs[j]) < |m| && 0 <= Footer(bs[j]) < |m| ==>
      m'[Header(bs[j])] == m[Header(bs[j])] && m'[Footer(bs[j])] == m[Footer(bs[j])]
  }

  /** m and m' agree on the prologue tags, the gap word and (when there are blocks) the epilogue. */
  ghost predicate SentinelsAgree(m: seq<int>, m': seq<int>, bs: seq<Block>, brk: int)
  {
    |m'| == |m| && FIRST_BP <= brk <= |m| &&
    m'[PROLOGUE_HDR] == m[PROLOGUE_HDR] && m'[PROLOGUE_FTR] == m[PROLOGUE_FTR] &&
    m'[GAP_WORD] == m[GAP_WORD] && (|bs| > 0 ==> m'[brk - WSIZE] == m[brk - WSIZE])
  }

  /** Writes confined to link cells leave every boundary tag and sentinel as it was. */
  lemma LinkChangesKeepTags(m: seq<int>, m': seq<int>, bs: seq<Block>, brk: int, list: seq<int>)
    requires Laid(bs, brk) && brk <= |m| && Listed(bs, list) && ChangedOnlyLinks(m, m', list)
    ensures TagsAgree(m, m', bs) && SentinelsAgree(m, m', bs, brk)
  {
    forall j | 0 <= j < |bs| && 0 <= Header(bs[j]) < |m| && 0 <= Footer(bs[j]) < |m|
      ensures m'[Header(bs[j])] == m[Header(bs[j])] && m'[Footer(bs[j])] == m[Footer(bs[j])]
    {
      Within(bs, brk, j);
      CellOutsideLinks(bs, brk, list, j, Header(bs[j]));
      CellOutsideLinks(bs, brk, list, j, Footer(bs[j]));
    }
    SentinelsOutsideLinks(bs, brk, list);
    if |bs| > 0 { Within(bs, brk, |bs| - 1); }
  }

  /**
   * Writes confined to the link cells of free blocks (and the prologue's
   * previous link) keep every boundary tag, the sentinels and every
   * allocated payload.
   */
  lemma LinkChangesKeep(m: seq<int>, m': seq<int>, bs: seq<Block>, brk: int, list: seq<int>, exempt: int)
    requires Laid(bs, brk) && brk <= |m| && Listed(bs, list) && ChangedOnlyLinks(m, m', list)
    requires Tagged(m, bs, exempt) && Sentinels(m, bs, brk)
    ensures Tagged(m', bs, exempt) && Sentinels(m', bs, brk) && PayloadsKept(m, m', bs, NULL)
  {
    LinkChangesKeepTags(m, m', bs, brk, list);
    LinkChangesKeepPayloads(m, m', bs, brk, list);
  }

  /** Writes confined to the link cells of free blocks keep every allocated payload. */
  lemma LinkChangesKeepPayloads(m: seq<int>, m': seq<int>, bs: seq<Block>, brk: int, list: seq<int>)
    requires Laid(bs, brk) && Listed(bs, list) && ChangedOnlyLinks(m, m', list)
    ensures PayloadsKept(m, m', bs, NULL)
  {
    forall b | b in bs && b.alloc && b.bp != NULL ensures KeepsPayload(m, m', b) {
      var j :| 0 <= j < |bs| && bs[j] == b;
      Within(bs, brk, j);
      forall c | b.bp <= c < Footer(b) && 0 <= c < |m| ensures m'[c] == m[c] {
        forall i | 0 <= i < |list| ensures !(list[i] <= c < list[i] + 2 * DSIZE) {
          assert IsFreeBlock(bs, list[i]);
          var j' :| 0 <= j' < |bs| && bs[j'].bp == list[i] && !bs[j'].alloc;
          Disjoint(bs, brk, j, j');
          Within(bs, brk, j');
        }
      }
    }
  }

  /** A write inside a free block (or the block `except`), or past the last block, keeps every other allocated payload. */
  lemma WriteKeepsPayloads(m: seq<int>, bs: seq<Block>, brk: int, except: int, j: int, c: int, v: int)
    requires Laid(bs, brk) && 0 <= c < |m|
    requires c >= brk - WSIZE ||
             (0 <= j < |bs| && (!bs[j].alloc || bs[j].bp == except) && Header(bs[j]) <= c < End(bs[j]))
    ensures PayloadsKept(m, m[c := v], bs, except)
  {
    forall b | b in bs && b.alloc && b.bp != except ensures KeepsPayload(m, m[c := v], b) {
      var i :| 0 <= i < |bs| && bs[i] == b;
      Within(bs, brk, i);
      if c < brk - WSIZE {
        assert i != j;
        Disjoint(bs, brk, i, j);
      }
    }
  }

  /** Payloads kept over two steps are kept over both. */
  lemma PayloadsKeptTrans(m0: seq<int>, m1: seq<int>, m2: seq<int>, bs: seq<Block>, except: int)
    requires PayloadsKept(m0, m1, bs, except) && PayloadsKept(m1, m2, bs, except) && |m0| == |m1|
    ensures PayloadsKept(m0, m2, bs, except)
  {
    forall b | b in bs && b.alloc && b.bp != except ensures KeepsPayload(m0, m2, b) {
      assert KeepsPayload(m0, m1, b) && KeepsPayload(m1, m2, b);
    }
  }

  /** Payloads kept for the allocated blocks of a later shape are kept for those an earlier shape passed on. */
  lemma PayloadsKeptBack(m0: seq<int>, m1: seq<int>, bs0: seq<Block>, bs1: seq<Block>, brk: int, except: int)
    requires PayloadsKept(m0, m1, bs1, NULL) && Transitions.KeepsAllocated(bs0, bs1, except) && Laid(bs0, brk)
    ensures PayloadsKept(m0, m1, bs0, except)
  {
    forall b | b in bs0 && b.alloc && b.bp != except ensures KeepsPayload(m0, m1, b) {
      var j :| 0 <= j < |bs0| && bs0[j] == b;
      Within(bs0, brk, j);
      assert b in bs1;
    }
  }

  /**
   * Two steps that each keep the allocated blocks and their payloads keep
   * those of the first shape.
   */
  lemma KeptThrough(bs: seq<Block>, c: seq<Block>, p: seq<Block>, brk0: int, brk1: int,
                    m0: seq<int>, m1: seq<int>, m2: seq<int>)
    requires Laid(bs, brk0) && Laid(c, brk1) && |m0| == |m1|
    requires Transitions.KeepsAllocated(bs, c, NULL) && Transitions.KeepsAllocated(c, p, NULL)
    requires PayloadsKept(m0, m1, bs, NULL) && PayloadsKept(m1, m2, c, NULL)
    ensures Transitions.KeepsAllocated(bs, p, NULL) && PayloadsKept(m0, m2, bs, NULL)
  {
    Transitions.KeepsAllocatedTrans(bs, c, p, brk1, NULL);
    PayloadsKeptBack(m1, m2, bs, c, brk0, NULL);
    PayloadsKeptTrans(m0, m1, m2, bs, NULL);
  }

  /**
   * Payloads kept by the shrink's stores (all but block k, and the front of
   * k) and then by freeing the remainder are kept by both.
   */
  lemma ShrinkPayloadsThrough(bs: seq<Block>, s: seq<Block>, brk: int, k: int, asize: int,
                              m0: seq<int>, m1: seq<int>, m2: seq<int>)
    requires Laid(bs, brk) && 0 <= k < |bs| && BLOCKSIZE <= asize < bs[k].size && |m0| == |m1|
    requires Transitions.KeepsAllocated(bs, s, bs[k].bp) && Block(bs[k].bp, asize, true) in s
    requires PayloadsKept(m0, m1, bs, bs[k].bp) && KeepsPayload(m0, m1, Block(bs[k].bp, asize, true))
    requires PayloadsKept(m1, m2, s, RestBp(bs[k], asize))
    ensures PayloadsKept(m0, m2, bs, bs[k].bp) && KeepsPayload(m0, m2, Block(bs[k].bp, asize, true))
  {
    forall b | b in bs && b.alloc && b.bp != bs[k].bp ensures KeepsPayload(m0, m2, b) {
      var j :| 0 <= j < |bs| && bs[j] == b;
      Disjoint(bs, brk, j, k);
      assert b in s && KeepsPayload(m0, m1, b);
    }
  }

  /** The n cells from `to` in m hold what the n cells from `from` held in m0. */
  ghost predicate Moved(m0: seq<int>, m: seq<int>, from: int, to: int, n: int)
  {
    forall c :: to <= c < to + n && 0 <= c < |m| && 0 <= c - to + from < |m0| ==> m[c] == m0[c - to + from]
  }

  /**
   * A copy of n cells from src to dst, i of them done, into the payload of
   * the allocated block at dst: those i cells moved, the source range
   * untouched, every other allocated payload kept.
   */
  ghost predicate Copying(m0: seq<int>, m: seq<int>, bs: seq<Block>, src: int, dst: int, n: int, i: int)
  {
    |m| == |m0| && PayloadsKept(m0, m, bs, dst) && Moved(m0, m, src, dst, i) &&
    forall c :: src <= c < src + n && 0 <= c < |m| ==> m[c] == m0[c]
  }

  /** Storing the next source cell at the next destination cell advances the copy by one. */
  lemma CopyStep(m0: seq<int>, m1: seq<int>, m2: seq<int>, bs: seq<Block>, src: int, dst: int, n: int, i: int)
    requires Copying(m0, m1, bs, src, dst, n, i) && 0 <= i < n && 0 <= src && src + n <= |m1|
    requires 0 <= dst && dst + n <= |m1| && (src + n <= dst || dst + n <= src)
    requires m2 == m1[dst + i := m1[src + i]] && PayloadsKept(m1, m2, bs, dst)
    ensures Copying(m0, m2, bs, src, dst, n, i + 1)
  {
    PayloadsKeptTrans(m0, m1, m2, bs, dst);
  }

  /** A block that keeps its payload keeps, in particular, any prefix of it in place. */
  lemma KeptInPlace(m0: seq<int>, m: seq<int>, b: Block, len: int)
    requires KeepsPayload(m0, m, b) && len <= b.size - DSIZE
    ensures Moved(m0, m, b.bp, b.bp, len)
  {
  }

  /** Every allocated block of bs but those at x and y keeps its payload. */
  ghost predicate OthersKept(m: seq<int>, m': seq<int>, bs: seq<Block>, x: int, y: int)
  {
    forall b :: b in bs && b.alloc && b.bp != x && b.bp != y ==> KeepsPayload(m, m', b)
  }

  /**
   * memcpy into R from P (m1 to m2), then mm_free of P (m2 to m3): the
   * copied cells survive the free, and every other payload is kept.
   */
  lemma CopyFreeKept(b: seq<Block>, p: Block, r: Block, n: int, m1: seq<int>, m2: seq<int>, m3: seq<int>)
    requires r in b && r.alloc && r.bp != p.bp && 0 <= n && r.bp + n <= Footer(r) && |m1| == |m2|
    requires PayloadsKept(m1, m2, b, r.bp) && PayloadsKept(m2, m3, b, p.bp) && Moved(m1, m2, p.bp, r.bp, n)
    ensures Moved(m1, m3, p.bp, r.bp, n) && OthersKept(m1, m3, b, p.bp, r.bp)
  {
    assert KeepsPayload(m2, m3, r);
  }

  /**
   * mm_realloc moving block P to a fresh block R: mm_malloc keeps every
   * allocated payload (m0 to m1), and the copy and the free of P keep every
   * payload but P's and R's (m1 to m2).  Every allocated payload but P's is
   * then kept, and the first len copied bytes, all inside P's payload, are
   * in R.
   */
  lemma MoveKept(a: seq<Block>, b: seq<Block>, brk: int, p: Block, r: Block, n: int, len: int,
                 m0: seq<int>, m1: seq<int>, m2: seq<int>)
    requires Laid(a, brk) && Transitions.KeepsAllocated(a, b, NULL) && !IsAllocatedBlock(a, r.bp)
    requires p in a && p.alloc && len <= n && len <= p.size - DSIZE && |m0| == |m1|
    requires PayloadsKept(m0, m1, a, NULL) && OthersKept(m1, m2, b, p.bp, r.bp) && Moved(m1, m2, p.bp, r.bp, n)
    ensures PayloadsKept(m0, m2, a, p.bp)
    ensures Moved(m0, m2, p.bp, r.bp, len)
  {
    forall x | x in a && x.alloc && x.bp != p.bp ensures KeepsPayload(m0, m2, x) {
      var j :| 0 <= j < |a| && a[j] == x;
      Within(a, brk, j);
      assert x in b && x.bp != r.bp;
      assert KeepsPayload(m0, m1, x) && KeepsPayload(m1, m2, x);
    }
    var j :| 0 <= j < |a| && a[j] == p;
    Within(a, brk, j);
    assert KeepsPayload(m0, m1, p);
  }

  /** The n cells from `from` in m are zero. */
  ghost predicate Zeroed(m: seq<int>, from: int, n: int)
  {
    forall c :: from <= c < from + n && 0 <= c < |m| ==> m[c] == 0
  }

  /**
   * bzero of the payload of the allocated block at dst, i cells done: those
   * cells are zero and every other allocated payload is kept.
   */
  ghost predicate Zeroing(m0: seq<int>, m: seq<int>, bs: seq<Block>, dst: int, i: int)
  {
    |m| == |m0| && PayloadsKept(m0, m, bs, dst) && Zeroed(m, dst, i)
  }

  /** Clearing the next cell advances bzero by one. */
  lemma ZeroStep(m0: seq<int>, m1: seq<int>, m2: seq<int>, bs: seq<Block>, dst: int, i: int)
    requires Zeroing(m0, m1, bs, dst, i) && 0 <= i && 0 <= dst && dst + i < |m1|
    requires m2 == m1[dst + i := 0] && PayloadsKept(m1, m2, bs, dst)
    ensures Zeroing(m0, m2, bs, dst, i + 1)
  {
    PayloadsKeptTrans(m0, m1, m2, bs, dst);
  }

  /**
   * mm_calloc: mm_malloc keeps every allocated payload (m0 to m1), then
   * bzero writes only into the block R it returned, which was not an
   * allocated block before; so every payload allocated before is kept.
   */
  lemma FreshKept(a: seq<Block>, b: seq<Block>, brk: int, r: int, m0: seq<int>, m1: seq<int>, m2: seq<int>)
    requires Laid(a, brk) && Transitions.KeepsAllocated(a, b, NULL) && !IsAllocatedBlock(a, r) && |m0| == |m1|
    requires PayloadsKept(m0, m1, a, NULL) && PayloadsKept(m1, m2, b, r)
    ensures PayloadsKept(m0, m2, a, NULL)
  {
    forall x | x in a && x.alloc ensures KeepsPayload(m0, m2, x) {
      var j :| 0 <= j < |a| && a[j] == x;
      Within(a, brk, j);
      assert x in b && x.bp != r;
      assert KeepsPayload(m0, m1, x) && KeepsPayload(m1, m2, x);
    }
  }
}
