/**
 * Uses of `ArrayLongLongMapRam` whose outcome follows from the contracts alone: the
 * situations the map is built for, as a bulk loader would drive it.
 */
module Scenarios {
  import opened LongCodec
  import opened Addressing
  import opened LongLongMapRam

  /**
   * Keys 5 then 4 through one writer: the key goes down but the segment does not, so both
   * writes succeed and both values read back.
   */
  method DecreasingKeysInOneSegment() returns (r1: PutResult, r2: PutResult, v5: Long, v4: Long)
    ensures r1 == Written && r2 == Written
    ensures v5 == 42 && v4 == 7
  {
    var m := new ArrayLongLongMapRam(DEFAULT_SEGMENT_BITS);
    Pow2Of20();
    DivModUnique(ByteAddress(5), Pow2(DEFAULT_SEGMENT_BITS), 0, 40);
    DivModUnique(ByteAddress(4), Pow2(DEFAULT_SEGMENT_BITS), 0, 32);
    var w := m.NewWriter();
    r1 := w.Put(5, 42);
    r2 := w.Put(4, 7);
    v5 := m.Get(5);
    v4 := m.Get(4);
  }

  /**
   * With 8-byte segments every key has a segment of its own: keys 0, 1, 2 each allocate one,
   * and all three values read back; a key never written is missing.
   */
  method OneValuePerSegment() returns (v0: Long, v1: Long, v2: Long, v3: Long, segments: nat)
    ensures v0 == 10 && v1 == 11 && v2 == 12 && v3 == MISSING_VALUE
    ensures segments == 3
  {
    var m := new ArrayLongLongMapRam(3);
    assert forall k: Key :: SegmentIndex(k, 3) == k;
    var w := m.NewWriter();
    var r0 := w.Put(0, 10);
    assert r0 == Written && m.numSegments == 1 && |m.segments| == 1;
    assert m.Stored(0) == 10;
    var r1 := w.Put(1, 11);
    assert r1 == Written && m.numSegments == 2 && |m.segments| == 2;
    assert m.Stored(0) == 10 && m.Stored(1) == 11;
    var r2 := w.Put(2, 12);
    assert r2 == Written && m.numSegments == 3;
    assert m.Stored(0) == 10 && m.Stored(1) == 11 && m.Stored(2) == 12 && m.Stored(3) == 0;
    v0 := m.Get(0);
    v1 := m.Get(1);
    v2 := m.Get(2);
    v3 := m.Get(3);
    segments := m.numSegments;
  }

  /**
   * Two writers over disjoint key ranges, their puts interleaved: every value reads back with
   * no cross-contamination.
   */
  method TwoWritersDisjointRanges() returns (a: Long, b: Long, c: Long)
    ensures a == 100 && b == 200 && c == 300
  {
    var m, low, high := TwoWritersStarted();
    Pow2Of20();
    DivModUnique(ByteAddress(2), Pow2(DEFAULT_SEGMENT_BITS), 0, 16);
    var r3 := low.Put(2, 300);
    a := m.Get(1);
    b := m.Get(0x20_0000);
    c := m.Get(2);
  }

  /** The first half of the scenario above: one put from each writer, the lower one first. */
  method TwoWritersStarted() returns (m: ArrayLongLongMapRam, low: Writer, high: Writer)
    ensures fresh(m) && fresh(low) && fresh(high) && fresh(m.Buffers()) && low.store == m && high.store == m
    ensures low.Valid() && high.Valid() && m.segmentBits == DEFAULT_SEGMENT_BITS
    ensures low.lastSegment == 0 && high.lastSegment == 16
    ensures m.Stored(1) == 100 && m.Stored(0x20_0000) == 200
  {
    m, low := LowWriterStarted();
    Pow2Of20();
    DivModUnique(ByteAddress(0x20_0000), Pow2(DEFAULT_SEGMENT_BITS), 16, 0);
    high := m.NewWriter();
    label beforeHigh:
    var r2 := high.Put(0x20_0000, 200);
    low.CacheSurvivesGrowth@beforeHigh();
  }

  /** A map with one writer that has put key 1. */
  method LowWriterStarted() returns (m: ArrayLongLongMapRam, low: Writer)
    ensures fresh(m) && fresh(low) && fresh(m.Buffers()) && low.store == m
    ensures low.Valid() && m.segmentBits == DEFAULT_SEGMENT_BITS
    ensures low.lastSegment == 0 && m.Stored(1) == 100
  {
    m := new ArrayLongLongMapRam(DEFAULT_SEGMENT_BITS);
    Pow2Of20();
    DivModUnique(ByteAddress(1), Pow2(DEFAULT_SEGMENT_BITS), 0, 8);
    low := m.NewWriter();
    var r1 := low.Put(1, 100);
  }

  /**
   * A writer that has moved on to segment 16 refuses a key of segment 0 and changes nothing.
   */
  method BackwardsSegmentRefused() returns (late: PutResult, stillThere: Long, stillMissing: Long)
    ensures late == OutOfOrder(3) && stillThere == 200 && stillMissing == MISSING_VALUE
  {
    var m := new ArrayLongLongMapRam(DEFAULT_SEGMENT_BITS);
    Pow2Of20();
    DivModUnique(ByteAddress(3), Pow2(DEFAULT_SEGMENT_BITS), 0, 24);
    DivModUnique(ByteAddress(0x20_0000), Pow2(DEFAULT_SEGMENT_BITS), 16, 0);
    var w := m.NewWriter();
    var r1 := w.Put(0x20_0000, 200);
    late := w.Put(3, 400);
    stillThere := m.Get(0x20_0000);
    stillMissing := m.Get(3);
  }

  /** Whatever a `put` ends in, the map's memory estimate is at least what it was before. */
  method PutNeverShrinksEstimate(w: Writer, key: Key, value: Long,
                                 objectArraySize: nat -> nat, byteArraySize: nat -> nat)
    returns (before: nat, after: nat)
    requires w.Valid()
    requires forall a: nat, b: nat :: a <= b ==> objectArraySize(a) <= objectArraySize(b)
    modifies w, w.store, w.store.Buffers()
    ensures w.Valid()
    ensures before == old(w.store.EstimateMemoryUsageBytes(objectArraySize, byteArraySize))
    ensures after == w.store.EstimateMemoryUsageBytes(objectArraySize, byteArraySize)
    ensures before <= after
  {
    before := w.store.EstimateMemoryUsageBytes(objectArraySize, byteArraySize);
    var slots, filled := |w.store.segments|, w.store.numSegments;
    var result := w.Put(key, value);
    after := w.store.EstimateMemoryUsageBytes(objectArraySize, byteArraySize);
    MemoryEstimateMonotone(slots, filled, |w.store.segments|, w.store.numSegments,
                           w.store.segmentSize, objectArraySize, byteArraySize);
  }
}
