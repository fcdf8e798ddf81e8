// The flag-word bit operations of the portability layer
// (src/core/pt_compat.c): the network notifiers, which run at interrupt
// level, only set bits, and the main loop only clears them. The POSIX and
// MacTCP builds mask the word directly; the Open Transport build goes
// through OTAtomicSetBit and its siblings, which address one byte of the
// big-endian word. The word and the bit index are 32-bit values.
module AtomicFlags {
  /** The mask of bit `n`, `1U << n`. */
  function Mask(n: bv32): (r: bv32)
    requires n < 32
  {
    1 << n
  }

  /** Whether bit `n` of `w` is set: the C test `(w & (1U << n)) != 0`. */
  predicate Bit(w: bv32, n: bv32)
    requires n < 32
  {
    w & Mask(n) != 0
  }

  /** Setting bit `n` sets it. */
  lemma SetBitSets(w: bv32, n: bv32)
    requires n < 32
    ensures Bit(w | Mask(n), n)
  {
  }

  /** Clearing bit `n` clears it. */
  lemma ClearBitClears(w: bv32, n: bv32)
    requires n < 32
    ensures !Bit(w & !Mask(n), n)
  {
  }

  /** Clearing a bit that is already clear changes nothing. */
  lemma ClearUnsetBit(w: bv32, n: bv32)
    requires n < 32 && !Bit(w, n)
    ensures w & !Mask(n) == w
  {
  }

  /** Setting bit `n` leaves every other bit `j` as it was. */
  lemma SetKeepsOtherBits(w: bv32, n: bv32, j: bv32)
    requires n < 32 && j < 32 && j != n
    ensures Bit(w | Mask(n), j) == Bit(w, j)
  {
  }

  /** Clearing bit `n` leaves every other bit `j` as it was. */
  lemma ClearKeepsOtherBits(w: bv32, n: bv32, j: bv32)
    requires n < 32 && j < 32 && j != n
    ensures Bit(w & !Mask(n), j) == Bit(w, j)
  {
  }

  /**
   * A flags word shared between an interrupt-level notifier (which only
   * sets bits) and the main loop (which only clears them).
   */
  class Flags {
    var word: bv32

    constructor()
      ensures word == 0
    {
      word := 0;
    }

    /** `pt_atomic_set_bit` (POSIX and MacTCP). */
    method SetBit(bit: bv32)
      requires bit < 32
      modifies this
      ensures word == old(word) | Mask(bit)
      ensures Bit(word, bit)
    {
      word := word | Mask(bit);
      SetBitSets(old(word), bit);
    }

    /** `pt_atomic_clear_bit` (POSIX and MacTCP). */
    method ClearBit(bit: bv32)
      requires bit < 32
      modifies this
      ensures word == old(word) & !Mask(bit)
      ensures !Bit(word, bit)
    {
      word := word & !Mask(bit);
      ClearBitClears(old(word), bit);
    }

    /** `pt_atomic_test_bit` (POSIX and MacTCP). */
    method TestBit(bit: bv32) returns (isSet: bool)
      requires bit < 32
      ensures isSet == Bit(word, bit)
    {
      isSet := Bit(word, bit);
    }

    /** `pt_atomic_test_and_clear_bit` (POSIX and MacTCP): the prior value, and the bit left clear. */
    method TestAndClearBit(bit: bv32) returns (wasSet: bool)
      requires bit < 32
      modifies this
      ensures wasSet == Bit(old(word), bit)
      ensures word == old(word) & !Mask(bit)
    {
      wasSet := Bit(word, bit);
      word := word & !Mask(bit);
    }

    /**
     * The Open Transport `pt_atomic_set_bit`: OTAtomicSetBit on bit
     * `bit % 8` of byte `3 - bit / 8` of the big-endian word.
     */
    method OtSetBit(bit: bv32)
      requires bit < 32
      modifies this
      ensures word == old(word) | Mask(bit)
    {
      word := OtSet(word, bit);
      OtSetBitIsSetBit(old(word), bit);
    }

    /** The Open Transport `pt_atomic_clear_bit`: OTAtomicClearBit on the same byte and bit. */
    method OtClearBit(bit: bv32)
      requires bit < 32
      modifies this
      ensures word == old(word) & !Mask(bit)
    {
      word := OtClear(word, bit);
      OtClearBitIsClearBit(old(word), bit);
    }

    /** The Open Transport `pt_atomic_test_bit`: OTAtomicTestBit on the same byte and bit. */
    method OtTestBit(bit: bv32) returns (isSet: bool)
      requires bit < 32
      ensures isSet == Bit(word, bit)
    {
      isSet := OtTest(word, bit);
      OtTestBitIsTestBit(word, bit);
    }

    /**
     * The Open Transport `pt_atomic_test_and_clear_bit`: test, then clear
     * only a set bit. OtTestAndClearIsTestAndClear shows this is the
     * POSIX operation.
     */
    method OtTestAndClearBit(bit: bv32) returns (wasSet: bool)
      requires bit < 32
      modifies this
      ensures wasSet == OtTest(old(word), bit)
      ensures word == if wasSet then OtClear(old(word), bit) else old(word)
    {
      wasSet := OtTest(word, bit);
      if wasSet {
        word := OtClear(word, bit);
      }
    }
  }

  /** Bit `k` of a byte, 0 the least significant, as the OTAtomic calls number them. */
  function ByteMask(k: bv32): (r: bv8)
    requires k < 8
  {
    (1 as bv8) << k
  }

  /** The byte at offset `off` (0 the lowest address) of a big-endian word. */
  function ByteAt(w: bv32, off: bv32): (r: bv8)
    requires off < 4
  {
    ((w >> (8 * (3 - off))) & 0xFF) as bv8
  }

  /** The word with its byte at offset `off` replaced by `b`. */
  function WithByte(w: bv32, off: bv32, b: bv8): (r: bv32)
    requires off < 4
  {
    (w & !(0xFF << (8 * (3 - off)))) | ((b as bv32) << (8 * (3 - off)))
  }

  /** OTAtomicSetBit on bit `n % 8` of byte `3 - n / 8`. */
  function OtSet(w: bv32, n: bv32): (r: bv32)
    requires n < 32
  {
    var off := 3 - n / 8;
    WithByte(w, off, ByteAt(w, off) | ByteMask(n % 8))
  }

  /** OTAtomicClearBit on bit `n % 8` of byte `3 - n / 8`. */
  function OtClear(w: bv32, n: bv32): (r: bv32)
    requires n < 32
  {
    var off := 3 - n / 8;
    WithByte(w, off, ByteAt(w, off) & !ByteMask(n % 8))
  }

  /** OTAtomicTestBit on bit `n % 8` of byte `3 - n / 8`. */
  predicate OtTest(w: bv32, n: bv32)
    requires n < 32
  {
    ByteAt(w, 3 - n / 8) & ByteMask(n % 8) != 0
  }

  /** Replacing a byte by itself leaves the word as it was. */
  lemma WithByteAt(w: bv32, off: bv32)
    requires off < 4
    ensures WithByte(w, off, ByteAt(w, off)) == w
  {
  }

  /** Setting bit `N % 8` of byte `3 - N / 8` sets logical bit `N` of the word. */
  lemma OtSetBitIsSetBit(w: bv32, n: bv32)
    requires n < 32
    ensures OtSet(w, n) == w | Mask(n)
  {
  }

  /** Clearing bit `N % 8` of byte `3 - N / 8` clears logical bit `N` of the word. */
  lemma OtClearBitIsClearBit(w: bv32, n: bv32)
    requires n < 32
    ensures OtClear(w, n) == w & !Mask(n)
  {
  }

  /** Bit `N % 8` of byte `3 - N / 8` is logical bit `N` of the word. */
  lemma OtTestBitIsTestBit(w: bv32, n: bv32)
    requires n < 32
    ensures OtTest(w, n) == Bit(w, n)
  {
  }

  /** Testing, then clearing only a set bit, reports bit `n` and leaves it clear. */
  lemma OtTestAndClearIsTestAndClear(w: bv32, n: bv32)
    requires n < 32
    ensures OtTest(w, n) == Bit(w, n)
    ensures (if OtTest(w, n) then OtClear(w, n) else w) == w & !Mask(n)
  {
    OtTestBitIsTestBit(w, n);
    if OtTest(w, n) {
      OtClearBitIsClearBit(w, n);
    } else {
      ClearUnsetBit(w, n);
    }
  }
}
