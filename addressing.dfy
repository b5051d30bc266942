/**
 * How `ArrayLongLongMapRam` turns a key into a place to store its value: the byte address
 * `key << 3`, whose high bits (`>>> segmentBits`) choose a segment and whose low bits
 * (`& segmentMask`) choose the 8-byte slot inside it.
 */
module Addressing {
  import opened LongCodec

  /** `Integer.MAX_VALUE`: writers refuse segment indices at or above it. */
  const INT_MAX: int := 0x7FFF_FFFF

  /** One more than the largest key for which `key << 3` does not wrap around. */
  const KEY_LIMIT: int := 0x2000_0000_0000_0000

  /** The keys the model addresses: those whose byte address fits in 64 unsigned bits. */
  type Key = k: int | 0 <= k < KEY_LIMIT

  function Pow2(n: nat): (r: nat)
    ensures r > 0
  {
    if n == 0 then 1 else 2 * Pow2(n - 1)
  }

  lemma Pow2Of20()
    ensures Pow2(20) == 0x10_0000
  {
    assert Pow2(5) == 32 && Pow2(10) == 1024 && Pow2(15) == 32768;
  }

  lemma {:induction false} Pow2Add(a: nat, b: nat)
    ensures Pow2(a + b) == Pow2(a) * Pow2(b)
  {
    if a > 0 {
      Pow2Add(a - 1, b);
    }
  }

  /** The byte codec's powers of 256 are the powers of two in steps of 8 bits. */
  lemma {:induction false} Pow256IsPow2(n: nat)
    ensures Pow256(n) == Pow2(8 * n)
  {
    if n > 0 {
      Pow256IsPow2(n - 1);
      Pow2Add(8, 8 * (n - 1));
      assert Pow2(8) == 256;
    }
  }

  /** `key << 3`: each key owns 8 bytes of the address space. */
  function ByteAddress(key: Key): (a: nat)
    ensures a % LONG_BYTES == 0 && a / LONG_BYTES == key
  {
    DivModUnique(key * LONG_BYTES, LONG_BYTES, key, 0);
    key * LONG_BYTES
  }

  /** `(key << 3) >>> segmentBits`: the segment holding `key`. */
  function SegmentIndex(key: Key, segmentBits: nat): (index: nat)
    ensures index * Pow2(segmentBits) <= ByteAddress(key) < (index + 1) * Pow2(segmentBits)
  {
    DivNonNegative(ByteAddress(key), Pow2(segmentBits));
    DivBracket(ByteAddress(key), Pow2(segmentBits));
    ByteAddress(key) / Pow2(segmentBits)
  }

  /** `(key << 3) & segmentMask` with `segmentMask == 2^segmentBits - 1`: where in its segment `key` lives. */
  function OffsetInSegment(key: Key, segmentBits: nat): (offset: nat)
    requires segmentBits >= 3
    ensures offset % LONG_BYTES == 0
    ensures offset + LONG_BYTES <= Pow2(segmentBits)
  {
    var slots := Pow2(segmentBits - 3);
    Pow2Split(segmentBits);
    DivModUnique(ByteAddress(key), Pow2(segmentBits), key / slots, (key % slots) * LONG_BYTES);
    ByteAddress(key) % Pow2(segmentBits)
  }

  /** `a / d` is the quotient whose multiples of `d` bracket `a`. */
  lemma DivBracket(a: int, d: int)
    requires a >= 0 && d > 0
    ensures (a / d) * d <= a < (a / d + 1) * d
  {
    var q := a / d;
    assert a == q * d + a % d;
    assert (q + 1) * d == q * d + d;
  }

  lemma MulAtLeast(x: int, d: int)
    requires x >= 1 && d > 0
    ensures x * d >= d
  {
    var y := x - 1;
    assert x * d == y * d + d;
  }

  lemma DivNonNegative(a: int, d: int)
    requires a >= 0 && d > 0
    ensures a / d >= 0
  {
    var q := a / d;
    assert a == q * d + a % d;
    if q < 0 {
      MulAtLeast(-q, d);
    }
  }

  /** Euclidean division has one quotient and one remainder. */
  lemma DivModUnique(a: int, d: int, q: int, r: int)
    requires d > 0 && 0 <= r < d && a == q * d + r
    ensures a / d == q && a % d == r
  {
    var q', r' := a / d, a % d;
    assert a == q' * d + r';
    assert (q - q') * d == r' - r;
    if q - q' >= 1 {
      MulAtLeast(q - q', d);
    } else if q' - q >= 1 {
      MulAtLeast(q' - q, d);
    }
  }

  lemma {:induction false} Pow2Split(n: nat)
    requires n >= 3
    ensures Pow2(n) == LONG_BYTES * Pow2(n - 3)
  {
    if n > 3 {
      Pow2Split(n - 1);
    }
  }

  /**
   * The writer's slot `offset - segmentOffset`, with `segmentOffset == segment << segmentBits`,
   * is the reader's slot `(key << 3) & segmentMask`: both sides of the map agree on where a key lives.
   */
  lemma WriterSlotIsReaderSlot(key: Key, segmentBits: nat)
    requires segmentBits >= 3
    ensures ByteAddress(key) - SegmentIndex(key, segmentBits) * Pow2(segmentBits) == OffsetInSegment(key, segmentBits)
  {
  }

  /** No two keys share a slot: segment and offset together determine the key. */
  lemma SlotInjective(k1: Key, k2: Key, segmentBits: nat)
    requires segmentBits >= 3
    requires SegmentIndex(k1, segmentBits) == SegmentIndex(k2, segmentBits)
    requires OffsetInSegment(k1, segmentBits) == OffsetInSegment(k2, segmentBits)
    ensures k1 == k2
  {
    WriterSlotIsReaderSlot(k1, segmentBits);
    WriterSlotIsReaderSlot(k2, segmentBits);
  }

  /** Two different keys in one segment own 8-byte slots that do not overlap. */
  lemma SlotsDisjoint(k1: Key, k2: Key, segmentBits: nat)
    requires segmentBits >= 3 && k1 != k2
    requires SegmentIndex(k1, segmentBits) == SegmentIndex(k2, segmentBits)
    ensures OffsetInSegment(k1, segmentBits) + LONG_BYTES <= OffsetInSegment(k2, segmentBits)
         || OffsetInSegment(k2, segmentBits) + LONG_BYTES <= OffsetInSegment(k1, segmentBits)
  {
    var o1, o2 := OffsetInSegment(k1, segmentBits), OffsetInSegment(k2, segmentBits);
    if o1 == o2 {
      SlotInjective(k1, k2, segmentBits);
    } else {
      DivModUnique(o1, LONG_BYTES, o1 / LONG_BYTES, 0);
      DivModUnique(o2, LONG_BYTES, o2 / LONG_BYTES, 0);
    }
  }

  // ---------------------------------------------------------------------------------------------
  // Java's `long` arithmetic as written, for keys outside `Key`

  /** `key << 3` on a Java `long`, read as the unsigned number that `>>>` and `&` work on. */
  function JavaByteAddress(key: Long): (a: nat)
    ensures a < TWO_TO_64
    ensures (a - key * LONG_BYTES) % TWO_TO_64 == 0
  {
    (key * LONG_BYTES) % TWO_TO_64
  }

  /** `(key << 3) >>> segmentBits` on a Java `long`. */
  function JavaSegmentIndex(key: Long, segmentBits: nat): (index: nat)
    ensures index * Pow2(segmentBits) <= JavaByteAddress(key) < (index + 1) * Pow2(segmentBits)
  {
    DivNonNegative(JavaByteAddress(key), Pow2(segmentBits));
    DivBracket(JavaByteAddress(key), Pow2(segmentBits));
    JavaByteAddress(key) / Pow2(segmentBits)
  }

  /** `(key << 3) & segmentMask` on a Java `long`. */
  function JavaOffsetInSegment(key: Long, segmentBits: nat): (offset: nat)
    ensures offset < Pow2(segmentBits)
    ensures JavaSegmentIndex(key, segmentBits) * Pow2(segmentBits) + offset == JavaByteAddress(key)
  {
    JavaByteAddress(key) % Pow2(segmentBits)
  }

  /** On the keys the model addresses, Java's wrapping arithmetic is exact. */
  lemma JavaAddressAgrees(key: Key, segmentBits: nat)
    requires segmentBits >= 3
    ensures JavaSegmentIndex(key, segmentBits) == SegmentIndex(key, segmentBits)
    ensures JavaOffsetInSegment(key, segmentBits) == OffsetInSegment(key, segmentBits)
  {
    DivModUnique(key * LONG_BYTES, TWO_TO_64, 0, key * LONG_BYTES);
  }

  /**
   * `key << 3` wraps: the key 2^61 and the key `Long.MIN_VALUE` get the byte address of key 0,
   * and their segment index 0 passes the writer's `segment >= Integer.MAX_VALUE` check, so a
   * write to either lands in key 0's slot.
   */
  lemma ShiftWrapAliasesKeyZero(segmentBits: nat)
    requires 3 <= segmentBits <= 30
    ensures JavaSegmentIndex(KEY_LIMIT, segmentBits) == SegmentIndex(0, segmentBits) < INT_MAX
    ensures JavaOffsetInSegment(KEY_LIMIT, segmentBits) == OffsetInSegment(0, segmentBits)
    ensures JavaSegmentIndex(LONG_MIN, segmentBits) == SegmentIndex(0, segmentBits)
    ensures JavaOffsetInSegment(LONG_MIN, segmentBits) == OffsetInSegment(0, segmentBits)
  {
    DivModUnique(KEY_LIMIT * LONG_BYTES, TWO_TO_64, 1, 0);
    DivModUnique(LONG_MIN * LONG_BYTES, TWO_TO_64, -4, 0);
  }

  // ---------------------------------------------------------------------------------------------
  // The reader's narrowing cast

  /** Java's `(int)` cast of a `long`: keep the low 32 bits, read them as signed. */
  function ToInt(x: int): (r: int)
    ensures -0x8000_0000 <= r <= INT_MAX
    ensures 0 <= x <= INT_MAX ==> r == x
    ensures (x - r) % 0x1_0000_0000 == 0
  {
    var low := x % 0x1_0000_0000;
    if low <= INT_MAX then low else low - 0x1_0000_0000
  }
}
