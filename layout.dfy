/*
 * The constants and the size/word macros of the allocator (mm.c lines 37-61),
 * and the size computations that mm_malloc, mm_realloc and extend_heap make
 * with them.
 *
 * Sizes and addresses are unbounded integers here.  The one place where the
 * width of size_t changes the outcome (ALIGN of a request close to 2^64) is
 * modelled separately by AdjustedSizeAsWritten.
 */
module Layout {

  const ALIGNMENT := 8   // payload alignment
  const WSIZE := 4       // a header, footer or tag word
  const DSIZE := 8       // a double word; also the width of a free-list link
  const CHUNKSIZE := 16  // default heap growth, in bytes
  const BLOCKSIZE := 24  // minimum block: header, two links, footer

  /** One more than the largest size_t value on the 64-bit targets of the source. */
  const SIZE_T_LIMIT := 0x1_0000_0000_0000_0000

  function Max(x: int, y: int): int
  {
    if x > y then x else y
  }

  function Min(x: int, y: int): int
  {
    if x < y then x else y
  }

  /** ALIGN(p): round p up to a multiple of ALIGNMENT by clearing the low bits of p + 7. */
  function Align(p: int): (r: int)
    requires p >= 0
    ensures r % ALIGNMENT == 0
    ensures p <= r < p + ALIGNMENT
  {
    (p + ALIGNMENT - 1) - (p + ALIGNMENT - 1) % ALIGNMENT
  }

  /**
   * PACK(size, alloc) is `size | alloc`.  mm.c only packs sizes that are
   * multiples of 8 with an allocation bit of 0 or 1, and for those the
   * bitwise or is the sum (BitsAsArithmetic).  PackRoundTrip states what
   * GET_SIZE and GET_ALLOC read back.
   */
  function Pack(size: int, alloc: int): int
  {
    size + alloc
  }

  /** GET_SIZE on a word already read: `w & ~0x7`, i.e. w with its low three bits cleared. */
  function GetSize(w: int): int
  {
    w - w % 8
  }

  /** GET_SIZE clears the low three bits: the size is a multiple of 8 within 8 below the word. */
  lemma SizeAligned(w: int)
    ensures GetSize(w) % DSIZE == 0 && GetSize(w) <= w < GetSize(w) + DSIZE
  {
    assert w - w % 8 == DSIZE * (w / DSIZE);
  }

  /** GET_ALLOC on a word already read: `w & 0x1`. */
  function GetAlloc(w: int): int
  {
    w % 2
  }

  /** Block sizes add up to a block size: a sum of multiples of 8 is one. */
  lemma SumAligned(a: int, b: int)
    requires a % DSIZE == 0 && b % DSIZE == 0
    ensures (a + b) % DSIZE == 0
  {
    assert a + b == DSIZE * (a / DSIZE + b / DSIZE);
  }

  /** GET_SIZE(PACK(s, a)) == s and GET_ALLOC(PACK(s, a)) == a. */
  lemma PackRoundTrip(size: int, alloc: int)
    requires size % DSIZE == 0 && 0 <= alloc <= 1
    ensures GetSize(Pack(size, alloc)) == size && GetAlloc(Pack(size, alloc)) == alloc
  {
    var q := size / DSIZE;
    assert size == DSIZE * q;
    assert (DSIZE * q + alloc) % DSIZE == alloc;
    assert (DSIZE * q + alloc) % 2 == (2 * (4 * q) + alloc) % 2 == alloc;
  }

  /**
   * The adjusted block size of mm_malloc and mm_realloc,
   * `MAX(ALIGN(size) + DSIZE, BLOCKSIZE)`, computed without the size_t
   * wrap-around of the source (see AdjustedSizeAsWritten).  It is the least
   * multiple of 8 that holds the header, the footer and `size` payload
   * bytes, and never less than the minimum block.
   */
  function AdjustedSize(size: nat): (asize: int)
    ensures asize % DSIZE == 0
    ensures asize >= BLOCKSIZE && asize >= size + DSIZE
    ensures asize == BLOCKSIZE || asize - DSIZE < size + DSIZE
  {
    Max(Align(size) + DSIZE, BLOCKSIZE)
  }

  /**
   * The byte count extend_heap asks for when called with `words`: an even
   * number of words, and never less than the minimum block.  It is the
   * least such count that covers the words asked for.
   */
  function ExtendSize(words: nat): (size: int)
    ensures size % DSIZE == 0 && size >= BLOCKSIZE && size >= words * WSIZE
    ensures size == BLOCKSIZE || size - DSIZE < words * WSIZE
  {
    var rounded := if words % 2 == 1 then (words + 1) * WSIZE else words * WSIZE;
    if rounded < BLOCKSIZE then BLOCKSIZE else rounded
  }

  /** The difference of two multiples of 8 is a multiple of 8. */
  lemma AlignedDiff(a: int, b: int)
    requires a % DSIZE == 0 && b % DSIZE == 0
    ensures (a - b) % DSIZE == 0
  {
    assert a - b == DSIZE * (a / DSIZE - b / DSIZE);
  }

  /** mm_malloc grows the heap by MAX(asize, CHUNKSIZE) bytes, i.e. that many words; the new block is exactly asize bytes when asize is a valid block size. */
  lemma {:induction false} GrowthFitsRequest(asize: int)
    requires asize % DSIZE == 0 && asize >= BLOCKSIZE
    ensures ExtendSize(Max(asize, CHUNKSIZE) / WSIZE) == asize
  {
    var words := Max(asize, CHUNKSIZE) / WSIZE;
    assert words * WSIZE == asize;
    assert words % 2 == 0;
  }

  // ---------------------------------------------------------------------
  // The macros at the level of 32-bit words

  function PackBits(size: bv32, alloc: bv32): bv32 { size | alloc }
  function SizeBits(w: bv32): bv32 { w & !7 }
  function AllocBits(w: bv32): bv32 { w & 1 }

  /** GET_SIZE(PACK(s, a)) == s and GET_ALLOC(PACK(s, a)) == a on 32-bit words. */
  lemma PackBitsRoundTrip(s: bv32, a: bv32)
    requires s % 8 == 0 && a <= 1
    ensures SizeBits(PackBits(s, a)) == s
    ensures AllocBits(PackBits(s, a)) == a
  {
  }

  /** The bitwise macros compute what Pack, GetSize and GetAlloc compute with arithmetic. */
  lemma BitsAsArithmetic(w: bv32, s: bv32, a: bv32)
    requires s % 8 == 0 && a <= 1
    ensures SizeBits(w) == w - w % 8
    ensures AllocBits(w) == w % 2
    ensures PackBits(s, a) == s + a
  {
  }

  /**
   * The byte count mm_calloc passes to mm_malloc: nmemb * size computed in
   * size_t, so reduced modulo 2^64 (mm.c has no overflow check).
   */
  function CallocBytes(nmemb: nat, size: nat): (n: nat)
    ensures n < SIZE_T_LIMIT
    ensures nmemb * size < SIZE_T_LIMIT ==> n == nmemb * size
  {
    (nmemb * size) % SIZE_T_LIMIT
  }

  // ---------------------------------------------------------------------
  // The adjusted size as written, in 64-bit size_t arithmetic

  /** ALIGN(p) in size_t: p + 7 wraps around modulo 2^64 before the low bits are cleared. */
  function AlignAsWritten(p: nat): (r: int)
    requires p < SIZE_T_LIMIT
    ensures 0 <= r < SIZE_T_LIMIT && r % ALIGNMENT == 0
  {
    var q := (p + ALIGNMENT - 1) % SIZE_T_LIMIT;
    q - q % ALIGNMENT
  }

  /** `MAX(ALIGN(size) + DSIZE, BLOCKSIZE)` with every size_t operation wrapping modulo 2^64. */
  function AdjustedSizeAsWritten(size: nat): (asize: int)
    requires size < SIZE_T_LIMIT
    ensures asize % DSIZE == 0 && asize >= BLOCKSIZE
  {
    Max((AlignAsWritten(size) + DSIZE) % SIZE_T_LIMIT, BLOCKSIZE)
  }

  /** Up to 2^64 - 16 the source's arithmetic does not wrap and agrees with AdjustedSize. */
  lemma AsWrittenAgreesBelowWrap(size: nat)
    requires size <= SIZE_T_LIMIT - 16
    ensures AdjustedSizeAsWritten(size) == AdjustedSize(size)
  {
    assert (size + ALIGNMENT - 1) % SIZE_T_LIMIT == size + ALIGNMENT - 1;
    assert (AlignAsWritten(size) + DSIZE) % SIZE_T_LIMIT == AlignAsWritten(size) + DSIZE;
  }

  /**
   * For the fifteen largest size_t requests the sum wraps to a small number
   * and the block asked for is the minimum block, 24 bytes, which cannot
   * hold `size` bytes of payload.
   */
  lemma AsWrittenWrapsAbove(size: nat)
    requires SIZE_T_LIMIT - 16 < size < SIZE_T_LIMIT
    ensures AdjustedSizeAsWritten(size) == BLOCKSIZE
    ensures AdjustedSizeAsWritten(size) < size + DSIZE
  {
    var q := (size + ALIGNMENT - 1) % SIZE_T_LIMIT;
    if size <= SIZE_T_LIMIT - ALIGNMENT {
      assert q == size + ALIGNMENT - 1;
      assert AlignAsWritten(size) == SIZE_T_LIMIT - ALIGNMENT;
    } else {
      assert q == size + ALIGNMENT - 1 - SIZE_T_LIMIT;
      assert AlignAsWritten(size) == 0;
    }
  }

  /** mm_init's extension, CHUNKSIZE/WSIZE words, is one minimum block. */
  lemma InitialChunk()
    ensures CHUNKSIZE / WSIZE == 4 && ExtendSize(CHUNKSIZE / WSIZE) == BLOCKSIZE
  {
  }
}
