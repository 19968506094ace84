/*
 * The explicit free list: its encoding in the link slots of free blocks
 * (PREV_FBLKP at bp, NEXT_FBLKP at bp + 8, mm.c lines 71-73) and the
 * memory effect of insert_first and remove_block (mm.c lines 413-428).
 */
module FreeList {
  import opened Layout
  import opened Blocks

  /** Free-list entries are far enough apart that their link slots never overlap. */
  ghost predicate Spaced(free: seq<int>)
  {
    forall i, j :: 0 <= i < |free| && 0 <= j < |free| && i != j ==>
      free[i] + 2 * DSIZE <= free[j] || free[j] + 2 * DSIZE <= free[i]
  }

  /**
   * The link slots encode `free` as a doubly linked list headed by `head`:
   * each entry's previous link names the entry before it (NULL for the
   * first), its next link the entry after it (the prologue for the last).
   * The link facts are triggered by reads through PREV_FBLKP / NEXT_FBLKP
   * (LinksOf), so that they are instantiated only where a link is used.
   */
  ghost predicate Linked(m: seq<int>, head: int, free: seq<int>)
  {
    Spaced(free) &&
    (forall i :: 0 <= i < |free| ==> 2 * DSIZE <= free[i] && free[i] + 2 * DSIZE <= |m|) &&
    head == (if |free| == 0 then PROLOGUE_BP else free[0]) &&
    (forall i {:trigger PrevFblkp(m, free[i])} :: 0 <= i < |free| ==>
       PrevFblkp(m, free[i]) == PrevOf(free, i)) &&
    (forall i {:trigger NextFblkp(m, free[i])} :: 0 <= i < |free| ==>
       NextFblkp(m, free[i]) == NextOf(free, i))
  }

  /** The previous link of the entry at i: the entry before it, or NULL. */
  function PrevOf(free: seq<int>, i: int): int
    requires 0 <= i < |free|
  {
    if i == 0 then NULL else free[i - 1]
  }

  /** The next link of the entry at i: the entry after it, or the prologue. */
  function NextOf(free: seq<int>, i: int): int
    requires 0 <= i < |free|
  {
    if i == |free| - 1 then PROLOGUE_BP else free[i + 1]
  }

  /** The block find_fit visits after i steps along the list: the entry at i, or the prologue once past the last. */
  function ListAt(free: seq<int>, i: int): int
    requires 0 <= i <= |free|
  {
    if i < |free| then free[i] else PROLOGUE_BP
  }

  /** The cells of the two link slots of some entry of `free`, or the prologue's previous link. */
  ghost predicate InLinkArea(free: seq<int>, c: int)
  {
    (PROLOGUE_BP <= c < PROLOGUE_BP + DSIZE) ||
    exists i :: 0 <= i < |free| && free[i] <= c < free[i] + 2 * DSIZE
  }

  /** m' differs from m at most in the link slots of `free` and of the prologue. */
  ghost predicate ChangedOnlyLinks(m: seq<int>, m': seq<int>, free: seq<int>)
  {
    |m'| == |m| &&
    forall c :: 0 <= c < |m| && !InLinkArea(free, c) ==> m'[c] == m[c]
  }

  /** Store a link into the 8-byte slot at p: the offset in its low word, zero in its high word. */
  function SetLink(m: seq<int>, p: int, v: int): (m': seq<int>)
    requires 0 <= p && p + WSIZE < |m|
    ensures |m'| == |m| && m'[p] == v
    ensures forall c :: 0 <= c < |m| && c != p && c != p + WSIZE ==> m'[c] == m[c]
  {
    m[p := v][p + WSIZE := 0]
  }

  /** The list with every occurrence of x taken out, the rest in order. */
  function Remove(s: seq<int>, x: int): (r: seq<int>)
    ensures |r| <= |s|
    ensures forall y :: y in r <==> y in s && y != x
  {
    if |s| == 0 then []
    else (if s[0] == x then [] else [s[0]]) + Remove(s[1..], x)
  }

  // ---------------------------------------------------------------------
  // Lemmas

  /** In a list without repetitions, removing the entry at i leaves the others in order. */
  lemma {:induction false} RemoveAt(s: seq<int>, i: int)
    requires Spaced(s) && 0 <= i < |s|
    ensures Remove(s, s[i]) == s[..i] + s[i + 1..]
  {
    if i == 0 {
      RemoveAbsent(s[1..], s[0]);
      assert s[1..] == s[..0] + s[1..];
    } else {
      var t := s[1..];
      assert Spaced(t) by {
        forall a, b | 0 <= a < |t| && 0 <= b < |t| && a != b
          ensures t[a] + 2 * DSIZE <= t[b] || t[b] + 2 * DSIZE <= t[a]
        {
          assert t[a] == s[a + 1] && t[b] == s[b + 1];
        }
      }
      assert t[i - 1] == s[i];
      RemoveAt(t, i - 1);
      assert s[0] != s[i];
      assert s[..i] + s[i + 1..] == [s[0]] + (t[..i - 1] + t[i..]);
    }
  }

  lemma {:induction false} RemoveAbsent(s: seq<int>, x: int)
    requires x !in s
    ensures Remove(s, x) == s
  {
    if |s| > 0 {
      assert s[1..] + [] == s[1..];
      assert x !in s[1..];
      RemoveAbsent(s[1..], x);
      assert s == [s[0]] + s[1..];
    }
  }

  /** Taking an entry out of a spaced list leaves a spaced list. */
  lemma SpacedRemove(s: seq<int>, x: int)
    requires Spaced(s)
    ensures Spaced(Remove(s, x))
  {
    if x in s {
      var i :| 0 <= i < |s| && s[i] == x;
      RemoveAt(s, i);
      var r := s[..i] + s[i + 1..];
      forall a, b | 0 <= a < |r| && 0 <= b < |r| && a != b
        ensures r[a] + 2 * DSIZE <= r[b] || r[b] + 2 * DSIZE <= r[a]
      {
        var a' := WithoutIndex(s, i, a);
        var b' := WithoutIndex(s, i, b);
        assert s[a'] + 2 * DSIZE <= s[b'] || s[b'] + 2 * DSIZE <= s[a'];
      }
    } else {
      RemoveAbsent(s, x);
    }
  }

  /** Entry a of the list without its entry at i is entry a' of the list, a' being a or a + 1. */
  lemma WithoutIndex(s: seq<int>, i: int, a: int) returns (a': int)
    requires 0 <= i < |s| && 0 <= a < |s| - 1
    ensures a' == (if a < i then a else a + 1) && 0 <= a' < |s| && (s[..i] + s[i + 1..])[a] == s[a']
  {
    a' := if a < i then a else a + 1;
  }

  /** The list without its entry at i. */
  function Without(free: seq<int>, i: int): seq<int>
    requires 0 <= i < |free|
  {
    free[..i] + free[i + 1..]
  }

  /** The position of an entry on the list. */
  lemma Position(free: seq<int>, x: int) returns (i: int)
    requires x in free
    ensures 0 <= i < |free| && free[i] == x
  {
    i :| 0 <= i < |free| && free[i] == x;
  }

  /** The links of the entry at i are its neighbours in the list. */
  lemma LinksOf(m: seq<int>, head: int, free: seq<int>, i: int)
    requires Linked(m, head, free) && 0 <= i < |free|
    ensures m[free[i]] == PrevOf(free, i) && m[free[i] + DSIZE] == NextOf(free, i)
    ensures PROLOGUE_BP <= NextOf(free, i) && NextOf(free, i) + 2 * DSIZE <= |m|
    ensures PrevOf(free, i) != NULL ==>
              2 * DSIZE <= PrevOf(free, i) && PrevOf(free, i) + 2 * DSIZE <= |m|
  {
    if i > 0 { assert 2 * DSIZE <= free[i - 1]; }
    if i < |free| - 1 { assert free[i + 1] + 2 * DSIZE <= |m|; }
    assert PrevFblkp(m, free[i]) == PrevOf(free, i);
    assert NextFblkp(m, free[i]) == NextOf(free, i);
  }

  /** The two link writes of remove_block take m to m2 and change nothing else. */
  ghost predicate RemoveWrites(m: seq<int>, m2: seq<int>, free: seq<int>, i: int)
    requires 0 <= i < |free|
  {
    var prev, next := PrevOf(free, i), NextOf(free, i);
    |m2| == |m| && 0 <= next < |m| && m2[next] == prev &&
    (prev != NULL ==> 0 <= prev + DSIZE < |m| && m2[prev + DSIZE] == next) &&
    forall c :: (0 <= c < |m| && c != next && c != next + WSIZE &&
                 (prev == NULL || (c != prev + DSIZE && c != prev + DSIZE + WSIZE))) ==>
      m2[c] == m[c]
  }

  /**
   * remove_block on the entry at i: the predecessor's next link (or
   * free_listp when there is none) is pointed at the successor, and the
   * successor's (or the prologue's) previous link at the predecessor.  Any
   * memory that differs from m only by those writes encodes the list
   * without that entry.
   */
  lemma LinkedAfterRemoveAt(m: seq<int>, m2: seq<int>, head: int, free: seq<int>, i: int)
    requires Linked(m, head, free) && 0 <= i < |free| && RemoveWrites(m, m2, free, i)
    ensures Linked(m2, if PrevOf(free, i) != NULL then head else NextOf(free, i), Without(free, i))
  {
    var r := Without(free, i);
    SpacedWithout(free, i);
    forall j | 0 <= j < |r|
      ensures 2 * DSIZE <= r[j] && r[j] + 2 * DSIZE <= |m2|
      ensures PrevFblkp(m2, r[j]) == PrevOf(r, j) && NextFblkp(m2, r[j]) == NextOf(r, j)
    {
      RemovedLinksAt(m, m2, head, free, i, j);
    }
    if |r| > 0 {
      assert r[0] == (if i == 0 then free[1] else free[0]);
    }
  }

  lemma SpacedWithout(free: seq<int>, i: int)
    requires Spaced(free) && 0 <= i < |free|
    ensures Spaced(Without(free, i))
  {
    var r := Without(free, i);
    forall a, b | 0 <= a < |r| && 0 <= b < |r| && a != b
      ensures r[a] + 2 * DSIZE <= r[b] || r[b] + 2 * DSIZE <= r[a]
    {
      var a' := if a < i then a else a + 1;
      var b' := if b < i then b else b + 1;
      assert r[a] == free[a'] && r[b] == free[b'];
    }
  }

  /**
   * The neighbours of an entry once the entry at i is gone: the one after
   * i inherits i's previous link, the one before i inherits i's next link.
   */
  lemma WithoutNeighbours(free: seq<int>, i: int, j: int)
    requires 0 <= i < |free| && 0 <= j < |free| - 1
    ensures var r, j' := Without(free, i), if j < i then j else j + 1;
            r[j] == free[j'] &&
            PrevOf(r, j) == (if j' == i + 1 then PrevOf(free, i) else PrevOf(free, j')) &&
            NextOf(r, j) == (if j' == i - 1 then NextOf(free, i) else NextOf(free, j'))
  {
    var r := Without(free, i);
    if j + 1 < |r| {
      assert r[j + 1] == free[if j + 1 < i then j + 1 else j + 2];
    }
    if j > 0 {
      assert r[j - 1] == free[if j - 1 < i then j - 1 else j];
    }
  }

  /** One entry of the list after remove_block keeps or receives the right links. */
  lemma RemovedLinksAt(m: seq<int>, m2: seq<int>, head: int, free: seq<int>, i: int, j: int)
    requires Linked(m, head, free)
    requires 0 <= i < |free| && 0 <= j < |free| - 1 && RemoveWrites(m, m2, free, i)
    ensures var r := Without(free, i);
            2 * DSIZE <= r[j] && r[j] + 2 * DSIZE <= |m2| &&
            m2[r[j]] == PrevOf(r, j) && m2[r[j] + DSIZE] == NextOf(r, j)
  {
    var j' := if j < i then j else j + 1;
    WithoutNeighbours(free, i, j);
    LinksOf(m, head, free, j');
    if i > 0 && j' != i - 1 {
      assert free[j'] + 2 * DSIZE <= free[i - 1] || free[i - 1] + 2 * DSIZE <= free[j'];
    }
    if i < |free| - 1 && j' != i + 1 {
      assert free[j'] + 2 * DSIZE <= free[i + 1] || free[i + 1] + 2 * DSIZE <= free[j'];
    }
  }

  /**
   * insert_first: the new entry's next link takes the old head, the old
   * head's (or the prologue's) previous link takes the new entry, the new
   * entry's previous link becomes NULL.  The result encodes [bp] + free.
   */
  lemma LinkedAfterInsert(m: seq<int>, head: int, free: seq<int>, bp: int)
    requires Linked(m, head, free)
    requires 2 * DSIZE <= bp && bp + 2 * DSIZE <= |m|
    requires Spaced([bp] + free)
    ensures 0 <= head && head + WSIZE < |m|
    ensures var m1 := SetLink(m, bp + DSIZE, head);
            var m2 := SetLink(m1, head, bp);
            Linked(SetLink(m2, bp, NULL), bp, [bp] + free)
  {
    if |free| > 0 { assert free[0] + 2 * DSIZE <= |m|; }
    var r := [bp] + free;
    var m3 := SetLink(SetLink(SetLink(m, bp + DSIZE, head), head, bp), bp, NULL);
    forall j | 0 <= j < |r|
      ensures 2 * DSIZE <= r[j] && r[j] + 2 * DSIZE <= |m3|
      ensures PrevFblkp(m3, r[j]) == PrevOf(r, j) && NextFblkp(m3, r[j]) == NextOf(r, j)
    {
      if j > 0 {
        assert r[j] == free[j - 1];
        LinksOf(m, head, free, j - 1);
        assert bp + 2 * DSIZE <= r[j] || r[j] + 2 * DSIZE <= bp by { assert r[0] == bp; }
        if j < |r| - 1 { assert r[j + 1] == free[j]; }
        if j > 1 { assert r[j - 1] == free[j - 2]; }
      } else if |free| > 0 {
        assert r[1] == free[0] == head;
        assert bp + 2 * DSIZE <= head || head + 2 * DSIZE <= bp;
      }
    }
  }

  /** A write outside the link area of `free` keeps the encoding of `free`. */
  lemma LinkedUnderWrite(m: seq<int>, head: int, free: seq<int>, c: int, v: int)
    requires Linked(m, head, free) && 0 <= c < |m| && !InLinkArea(free, c)
    ensures Linked(m[c := v], head, free)
  {
    forall i | 0 <= i < |free|
      ensures PrevFblkp(m[c := v], free[i]) == PrevOf(free, i)
      ensures NextFblkp(m[c := v], free[i]) == NextOf(free, i)
    {
      assert !(free[i] <= c < free[i] + 2 * DSIZE);
      LinksOf(m, head, free, i);
    }
  }
}
