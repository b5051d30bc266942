/**
 * `ArrayLongLongMapRam`: a map from `long` keys to `long` values kept in lazily allocated
 * byte segments of `2^segmentBits` bytes each, written through per-producer `Writer`s and read
 * with `Get`. A stored 0 cannot be told apart from a key that was never written.
 */
module LongLongMapRam {
  import opened Options
  import opened LongCodec
  import opened Addressing

  /** `LongLongMap.MISSING_VALUE`, what `get` answers for a key with no stored value. */
  const MISSING_VALUE: Long := LONG_MIN

  /** The segment size used by the one-argument constructor: 2^20 bytes. */
  const DEFAULT_SEGMENT_BITS: nat := 20

  /** What a `Writer.put` call ends in: success, or the exception it throws. */
  datatype PutResult =
    | Written
      /** `IllegalStateException`: the key's segment lies before the writer's current one. */
    | OutOfOrder(key: Key)
      /** `IllegalArgumentException`: the key's segment index is `>= Integer.MAX_VALUE`. */
    | SegmentOverflow(segment: nat)

  /** How many slots of the segment list hold a buffer. */
  function CountAllocated(segments: seq<Option<array<Byte>>>): (n: nat)
    ensures n <= |segments|
  {
    if segments == [] then 0
    else CountAllocated(segments[..|segments| - 1]) + (if segments[|segments| - 1].Some? then 1 else 0)
  }

  lemma CountAllocatedAppendEmpty(segments: seq<Option<array<Byte>>>)
    ensures CountAllocated(segments + [None]) == CountAllocated(segments)
  {
    assert (segments + [None])[..|segments|] == segments;
  }

  /** Filling one empty slot adds exactly one to the count. */
  lemma {:induction false} CountAllocatedFill(segments: seq<Option<array<Byte>>>, index: nat, buf: array<Byte>)
    requires index < |segments| && segments[index].None?
    ensures CountAllocated(segments[index := Some(buf)]) == CountAllocated(segments) + 1
  {
    var n := |segments|;
    var filled := segments[index := Some(buf)];
    if index == n - 1 {
      assert filled[..n - 1] == segments[..n - 1];
    } else {
      assert filled[..n - 1] == segments[..n - 1][index := Some(buf)];
      CountAllocatedFill(segments[..n - 1], index, buf);
    }
  }

  /**
   * The memory estimate of the map: the segment list's own array, with one reference per slot
   * (empty slots included), plus one byte array of `segmentSize` per allocated segment. The
   * `MemoryEstimator` formulas are parameters.
   */
  function MemoryEstimate(slots: nat, filled: nat, segmentSize: nat,
                          objectArraySize: nat -> nat, byteArraySize: nat -> nat): (bytes: nat)
    ensures bytes >= byteArraySize(segmentSize) * filled
  {
    objectArraySize(slots) + byteArraySize(segmentSize) * filled
  }

  /** The estimate never decreases as slots are added and segments allocated. */
  lemma MemoryEstimateMonotone(slots: nat, filled: nat, slots': nat, filled': nat, segmentSize: nat,
                               objectArraySize: nat -> nat, byteArraySize: nat -> nat)
    requires slots <= slots' && filled <= filled'
    requires forall a: nat, b: nat :: a <= b ==> objectArraySize(a) <= objectArraySize(b)
    ensures MemoryEstimate(slots, filled, segmentSize, objectArraySize, byteArraySize)
         <= MemoryEstimate(slots', filled', segmentSize, objectArraySize, byteArraySize)
  {
    var perSegment := byteArraySize(segmentSize);
    assert perSegment * filled' == perSegment * filled + perSegment * (filled' - filled);
  }

  class ArrayLongLongMapRam {
    const segmentBits: nat
    const segmentMask: nat
    const segmentSize: nat
    /** The segment list; `None` is a slot padded in but not yet allocated (Java's `null`). */
    var segments: seq<Option<array<Byte>>>
    /** How many segments have been allocated. */
    var numSegments: nat

    ghost predicate Valid()
      reads this
    {
      && 3 <= segmentBits <= 30
      && segmentSize == Pow2(segmentBits)
      && segmentMask == segmentSize - 1
      && |segments| <= INT_MAX
      && (forall i :: 0 <= i < |segments| && segments[i].Some? ==> segments[i].value.Length == segmentSize)
      && (forall i, j :: 0 <= i < |segments| && 0 <= j < |segments| && i != j && segments[i].Some? && segments[j].Some?
            ==> segments[i].value != segments[j].value)
      && numSegments == CountAllocated(segments)
    }

    /** The buffers the map owns. */
    ghost function Buffers(): set<array<Byte>>
      reads this
    {
      set i | 0 <= i < |segments| && segments[i].Some? :: segments[i].value
    }

    /** The raw `long` in `key`'s slot; a slot in a segment that does not exist reads as 0. */
    ghost function Stored(key: Key): Long
      reads this, Buffers()
      requires Valid()
    {
      var index := SegmentIndex(key, segmentBits);
      if index < |segments| && segments[index].Some? then
        GetLong(segments[index].value, OffsetInSegment(key, segmentBits))
      else 0
    }

    /** `ArrayLongLongMapRam(direct, segmentBits)`: an empty map; every key reads as missing. */
    constructor (segmentBits: nat)
      requires 3 <= segmentBits <= 30
      ensures Valid()
      ensures this.segmentBits == segmentBits && segmentSize == Pow2(segmentBits)
      ensures segments == [] && numSegments == 0
      ensures forall key: Key :: Get(key) == MISSING_VALUE
    {
      this.segmentBits := segmentBits;
      segmentMask := Pow2(segmentBits) - 1;
      segmentSize := Pow2(segmentBits);
      segments := [];
      numSegments := 0;
    }

    /** `ArrayLongLongMapRam(direct)`: the same with 1 MiB segments. */
    constructor WithDefaultSegments()
      ensures Valid()
      ensures segmentBits == DEFAULT_SEGMENT_BITS && segmentSize == 0x10_0000
      ensures segments == [] && numSegments == 0
    {
      Pow2Of20();
      segmentBits := DEFAULT_SEGMENT_BITS;
      segmentMask := Pow2(DEFAULT_SEGMENT_BITS) - 1;
      segmentSize := Pow2(DEFAULT_SEGMENT_BITS);
      segments := [];
      numSegments := 0;
    }

    /**
     * `getOrCreateSegment(index)`: pad the list with empty slots up to `index`, allocate a
     * zero-filled buffer there if the slot is empty, and return the slot's buffer. Slots that
     * were filled stay as they were, and no key's stored value changes.
     */
    method GetOrCreateSegment(index: nat) returns (buf: array<Byte>)
      requires Valid() && index < INT_MAX
      modifies this
      ensures Valid()
      ensures index < |segments| && segments[index] == Some(buf)
      ensures |segments| == if index < old(|segments|) then old(|segments|) else index + 1
      ensures forall i :: 0 <= i < |segments| && i != index ==>
                segments[i] == if i < old(|segments|) then old(segments[i]) else None
      ensures old(index < |segments| && segments[index].Some?) ==>
                segments == old(segments) && numSegments == old(numSegments)
      ensures !old(index < |segments| && segments[index].Some?) ==>
                fresh(buf) && buf[..] == seq(segmentSize, _ => 0) && numSegments == old(numSegments) + 1
      ensures fresh(Buffers() - old(Buffers()))
      ensures forall key: Key :: Stored(key) == old(Stored(key))
    {
      PadSegments(index);
      if segments[index].None? {
        buf := new Byte[segmentSize](_ => 0);
        FillSegment(index, buf);
      } else {
        buf := segments[index].value;
      }
    }

    /** The `while` loop of `getOrCreateSegment`: append empty slots until `index` is a slot. */
    method PadSegments(index: nat)
      requires Valid() && index < INT_MAX
      modifies this
      ensures Valid()
      ensures |segments| == if index < old(|segments|) then old(|segments|) else index + 1
      ensures segments[..old(|segments|)] == old(segments)
      ensures forall i :: old(|segments|) <= i < |segments| ==> segments[i] == None
      ensures numSegments == old(numSegments)
      ensures forall key: Key :: Stored(key) == old(Stored(key))
    {
      while |segments| <= index
        invariant Valid()
        invariant old(|segments|) <= |segments| <= if index < old(|segments|) then old(|segments|) else index + 1
        invariant segments[..old(|segments|)] == old(segments)
        invariant forall i :: old(|segments|) <= i < |segments| ==> segments[i] == None
        invariant numSegments == old(numSegments)
      {
        CountAllocatedAppendEmpty(segments);
        segments := segments + [None];
      }
      forall key: Key
        ensures Stored(key) == old(Stored(key))
      {
        var s := SegmentIndex(key, segmentBits);
        if s < old(|segments|) {
          assert segments[s] == old(segments[s]);
        }
      }
    }

    /** Install a fresh zero-filled buffer in the empty slot `index` and count it. */
    method FillSegment(index: nat, buf: array<Byte>)
      requires Valid() && index < |segments| && segments[index].None?
      requires buf !in Buffers() && buf.Length == segmentSize && buf[..] == seq(segmentSize, _ => 0)
      modifies this
      ensures Valid()
      ensures segments == old(segments)[index := Some(buf)]
      ensures numSegments == old(numSegments) + 1
      ensures forall key: Key :: Stored(key) == old(Stored(key))
    {
      CountAllocatedFill(segments, index, buf);
      numSegments := numSegments + 1;
      segments := segments[index := Some(buf)];
      forall key: Key
        ensures Stored(key) == old(Stored(key))
      {
        var s := SegmentIndex(key, segmentBits);
        if s == index {
          var o := OffsetInSegment(key, segmentBits);
          assert buf[o..o + LONG_BYTES] == seq(LONG_BYTES, _ => 0);
          DecodeZero(buf[o..o + LONG_BYTES]);
        }
      }
    }

    /** `newWriter()`: a writer that has not yet touched any segment. */
    method NewWriter() returns (w: Writer)
      requires Valid()
      ensures fresh(w) && w.Valid() && w.store == this && w.lastSegment == -1
    {
      w := new Writer(this);
    }

    /**
     * `get(key)`: the value stored for `key`, or `MISSING_VALUE` when its segment lies past
     * the list, its slot is empty, or the stored word is 0. It never answers 0.
     */
    function Get(key: Key): (r: Long)
      reads this, Buffers()
      requires Valid()
      ensures r == if Stored(key) == 0 then MISSING_VALUE else Stored(key)
      ensures SegmentIndex(key, segmentBits) >= |segments| ==> r == MISSING_VALUE
      ensures r != 0
    {
      var index := SegmentIndex(key, segmentBits);
      if index >= |segments| then MISSING_VALUE
      else match segments[index]
        case None => MISSING_VALUE
        case Some(byteBuffer) =>
          var result := GetLong(byteBuffer, OffsetInSegment(key, segmentBits));
          if result == 0 then MISSING_VALUE else result
    }

    /**
     * `get(key)` exactly as written, narrowing the segment index with `(int)` before the
     * bounds check: an index that does not fit in an `int` wraps around, and a negative
     * result makes `segments.get` throw `IndexOutOfBoundsException` (`None` here).
     * Below `Integer.MAX_VALUE` it agrees with `Get`.
     */
    function GetAsWritten(key: Key): (r: Option<Long>)
      reads this, Buffers()
      requires Valid()
      ensures SegmentIndex(key, segmentBits) <= INT_MAX ==> r == Some(Get(key))
      ensures ToInt(SegmentIndex(key, segmentBits)) < 0 ==> r == None
    {
      var idx := ToInt(SegmentIndex(key, segmentBits));
      if idx >= |segments| then Some(MISSING_VALUE)
      else if idx < 0 then None
      else match segments[idx]
        case None => Some(MISSING_VALUE)
        case Some(byteBuffer) =>
          var result := GetLong(byteBuffer, OffsetInSegment(key, segmentBits));
          Some(if result == 0 then MISSING_VALUE else result)
    }

    /**
     * With 1 MiB segments, key 2^49 has segment index 2^32, which `(int)` turns into 0: as
     * written, `get(2^49)` answers whatever `get(0)` answers, although no writer can ever store
     * key 2^49 (its segment index is far past `Integer.MAX_VALUE`).
     */
    lemma TruncatedIndexAliasesKeyZero()
      requires Valid() && segmentBits == DEFAULT_SEGMENT_BITS
      ensures SegmentIndex(0x2_0000_0000_0000, segmentBits) >= INT_MAX
      ensures GetAsWritten(0x2_0000_0000_0000) == Some(Get(0))
    {
      var key: Key := 0x2_0000_0000_0000;
      Pow2Of20();
      DivModUnique(ByteAddress(key), Pow2(segmentBits), 0x1_0000_0000, 0);
      assert SegmentIndex(key, segmentBits) == 0x1_0000_0000;
      assert OffsetInSegment(key, segmentBits) == 0;
      assert ToInt(0x1_0000_0000) == 0;
      assert SegmentIndex(0, segmentBits) == 0 && OffsetInSegment(0, segmentBits) == 0;
    }

    /**
     * With 1 MiB segments, key 2^48 has segment index 2^31, which `(int)` turns negative: as
     * written, `get(2^48)` throws instead of answering `MISSING_VALUE`.
     */
    lemma NegativeIndexThrows()
      requires Valid() && segmentBits == DEFAULT_SEGMENT_BITS
      ensures SegmentIndex(0x1_0000_0000_0000, segmentBits) == 0x8000_0000
      ensures GetAsWritten(0x1_0000_0000_0000) == None
      ensures Get(0x1_0000_0000_0000) == MISSING_VALUE
    {
      var key: Key := 0x1_0000_0000_0000;
      Pow2Of20();
      DivModUnique(ByteAddress(key), Pow2(segmentBits), 0x8000_0000, 0);
      assert ToInt(0x8000_0000) == -0x8000_0000;
    }

    /** A key whose segment index no writer accepts is always missing. */
    lemma UnwritableKeyIsMissing(key: Key)
      requires Valid() && SegmentIndex(key, segmentBits) >= INT_MAX
      ensures Get(key) == MISSING_VALUE
    {
    }

    /** `diskUsageBytes()`: the map lives in memory only. */
    function DiskUsageBytes(): (bytes: nat)
      ensures bytes == 0
    {
      0
    }

    /**
     * `estimateMemoryUsageBytes()`, with `MemoryEstimator.estimateObjectArraySize` and
     * `estimateByteArraySize` as parameters. It never counts less than the allocated segments.
     */
    function EstimateMemoryUsageBytes(objectArraySize: nat -> nat, byteArraySize: nat -> nat): (bytes: nat)
      reads this
      requires Valid()
      ensures bytes == MemoryEstimate(|segments|, CountAllocated(segments), segmentSize, objectArraySize, byteArraySize)
      ensures bytes >= byteArraySize(segmentSize) * |Buffers()|
    {
      BuffersCounted();
      MemoryEstimate(|segments|, numSegments, segmentSize, objectArraySize, byteArraySize)
    }

    /**
     * The memory estimate never decreases while the list only grows and segments are only
     * added, which is all `getOrCreateSegment` and `put` ever do to the map.
     */
    twostate lemma EstimateNeverDecreases(objectArraySize: nat -> nat, byteArraySize: nat -> nat)
      requires old(Valid()) && Valid()
      requires old(|segments|) <= |segments| && old(numSegments) <= numSegments
      requires forall a: nat, b: nat :: a <= b ==> objectArraySize(a) <= objectArraySize(b)
      ensures old(EstimateMemoryUsageBytes(objectArraySize, byteArraySize))
           <= EstimateMemoryUsageBytes(objectArraySize, byteArraySize)
    {
      MemoryEstimateMonotone(old(|segments|), old(numSegments), |segments|, numSegments,
                             segmentSize, objectArraySize, byteArraySize);
    }

    /** Each allocated slot holds its own buffer, so `numSegments` is the number of buffers. */
    lemma BuffersCounted()
      requires Valid()
      ensures |Buffers()| == numSegments
    {
      BuffersOfPrefix(|segments|);
      assert segments[..|segments|] == segments;
      assert Buffers() == PrefixBuffers(|segments|);
    }

    /** The buffers held by the first `n` slots. */
    ghost function PrefixBuffers(n: nat): set<array<Byte>>
      reads this
      requires n <= |segments|
    {
      set i | 0 <= i < n && segments[i].Some? :: segments[i].value
    }

    /** Slot `n - 1` adds its buffer, if any, and that buffer is new to the prefix. */
    lemma PrefixBuffersStep(n: nat)
      requires Valid() && 0 < n <= |segments|
      ensures PrefixBuffers(n) == PrefixBuffers(n - 1) + (if segments[n - 1].Some? then {segments[n - 1].value} else {})
      ensures segments[n - 1].Some? ==> segments[n - 1].value !in PrefixBuffers(n - 1)
    {
    }

    lemma {:induction false} BuffersOfPrefix(n: nat)
      requires Valid() && n <= |segments|
      ensures |PrefixBuffers(n)| == CountAllocated(segments[..n])
    {
      if n > 0 {
        BuffersOfPrefix(n - 1);
        PrefixBuffersStep(n);
        assert segments[..n][..n - 1] == segments[..n - 1];
      } else {
        assert PrefixBuffers(n) == {};
      }
    }
  }

  /**
   * The anonymous `Writer` that `newWriter()` returns: one producer's cursor over the map,
   * caching the segment it is writing into.
   */
  class Writer {
    /** The map this writer belongs to (`ArrayLongLongMapRam.this`). */
    const store: ArrayLongLongMapRam
    var lastSegment: int
    /** Byte address at which `lastSegment` starts. */
    var segmentOffset: int
    /** The cached buffer of `lastSegment`. */
    var buffer: Option<array<Byte>>

    ghost predicate Valid()
      reads this, store
    {
      && store.Valid()
      && -1 <= lastSegment < INT_MAX
      && (lastSegment == -1 ==> segmentOffset == -1 && buffer == None)
      && (lastSegment >= 0 ==>
            && lastSegment < |store.segments|
            && store.segments[lastSegment] == buffer && buffer.Some?
            && segmentOffset == lastSegment * store.segmentSize)
    }

    constructor (store: ArrayLongLongMapRam)
      requires store.Valid()
      ensures Valid() && this.store == store && lastSegment == -1
    {
      this.store := store;
      lastSegment := -1;
      segmentOffset := -1;
      buffer := None;
    }

    /**
     * `put(key, value)`. A key whose segment lies before the current one is refused
     * (`OutOfOrder`); moving to a new segment at or past `Integer.MAX_VALUE` is refused
     * (`SegmentOverflow`); both leave everything unchanged. Otherwise exactly `key`'s slot now
     * holds `value`, and `get(key)` answers it unless it is 0. Keys may go down freely inside the
     * current segment. Filled segment slots are never replaced, and the memory estimate changes
     * only when the writer moves to a segment that had no buffer.
     */
    method Put(key: Key, value: Long) returns (result: PutResult)
      requires Valid()
      modifies this, store, store.Buffers()
      ensures Valid()
      ensures result.OutOfOrder? <==> SegmentIndex(key, store.segmentBits) < old(lastSegment)
      ensures result.SegmentOverflow? <==>
                old(lastSegment) < SegmentIndex(key, store.segmentBits) && SegmentIndex(key, store.segmentBits) >= INT_MAX
      ensures result.OutOfOrder? ==> result == OutOfOrder(key)
      ensures result.SegmentOverflow? ==> result == SegmentOverflow(SegmentIndex(key, store.segmentBits))
      ensures !result.Written? ==>
                && lastSegment == old(lastSegment) && buffer == old(buffer)
                && store.segments == old(store.segments) && store.numSegments == old(store.numSegments)
                && forall k: Key :: store.Stored(k) == old(store.Stored(k))
      ensures result.Written? ==>
                && lastSegment == SegmentIndex(key, store.segmentBits)
                && store.Stored(key) == value
                && store.Get(key) == (if value == 0 then MISSING_VALUE else value)
                && forall k: Key :: k != key ==> store.Stored(k) == old(store.Stored(k))
      ensures old(|store.segments|) <= |store.segments|
      ensures forall i :: 0 <= i < old(|store.segments|) && old(store.segments[i]).Some? ==>
                store.segments[i] == old(store.segments[i])
      ensures fresh(store.Buffers() - old(store.Buffers()))
      ensures result.Written? ==>
                && |store.segments| == (if SegmentIndex(key, store.segmentBits) < old(|store.segments|)
                                        then old(|store.segments|) else SegmentIndex(key, store.segmentBits) + 1)
                && store.numSegments == old(store.numSegments) +
                     (if old(SegmentIndex(key, store.segmentBits) < |store.segments|
                             && store.segments[SegmentIndex(key, store.segmentBits)].Some?) then 0 else 1)
      ensures SegmentIndex(key, store.segmentBits) == old(lastSegment) ==>
                store.segments == old(store.segments) && store.numSegments == old(store.numSegments)
    {
      var segment := SegmentIndex(key, store.segmentBits);
      if segment < lastSegment {
        return OutOfOrder(key);
      } else if segment > lastSegment {
        if segment >= INT_MAX {
          return SegmentOverflow(segment);
        }
        MoveTo(segment);
      }
      WriteSlot(key, value);
      result := Written;
    }

    /** Fetch (creating it if need be) the buffer of a later segment and cache it. */
    method MoveTo(segment: nat)
      requires Valid() && lastSegment < segment < INT_MAX
      modifies this, store
      ensures Valid() && lastSegment == segment
      ensures old(|store.segments|) <= |store.segments|
      ensures forall i :: 0 <= i < old(|store.segments|) && old(store.segments[i]).Some? ==>
                store.segments[i] == old(store.segments[i])
      ensures fresh(store.Buffers() - old(store.Buffers()))
      ensures |store.segments| == if segment < old(|store.segments|) then old(|store.segments|) else segment + 1
      ensures store.numSegments == old(store.numSegments) +
                (if old(segment < |store.segments| && store.segments[segment].Some?) then 0 else 1)
      ensures forall k: Key :: store.Stored(k) == old(store.Stored(k))
    {
      var buf := store.GetOrCreateSegment(segment);
      lastSegment := segment;
      segmentOffset := segment * store.segmentSize;
      buffer := Some(buf);
    }

    /**
     * A writer's cached segment stays correct while other writers grow the shared store,
     * because the store only appends slots and never replaces a filled one.
     */
    twostate lemma CacheSurvivesGrowth()
      requires old(Valid()) && store.Valid() && unchanged(this)
      requires old(|store.segments|) <= |store.segments|
      requires forall i :: 0 <= i < old(|store.segments|) && old(store.segments[i]).Some? ==>
                 store.segments[i] == old(store.segments[i])
      ensures Valid()
    {
    }

    /** `buffer.putLong(offset - segmentOffset, value)` into the cached segment. */
    method WriteSlot(key: Key, value: Long)
      requires Valid() && lastSegment == SegmentIndex(key, store.segmentBits)
      modifies store.Buffers()
      ensures store.Stored(key) == value
      ensures store.Get(key) == (if value == 0 then MISSING_VALUE else value)
      ensures forall k: Key :: k != key ==> store.Stored(k) == old(store.Stored(k))
    {
      var bits := store.segmentBits;
      WriterSlotIsReaderSlot(key, bits);
      var slot := ByteAddress(key) - segmentOffset;
      var buf := buffer.value;
      PutLong(buf, slot, value);
      forall k: Key | k != key
        ensures store.Stored(k) == old(store.Stored(k))
      {
        var s := SegmentIndex(k, bits);
        if s == lastSegment {
          SlotsDisjoint(k, key, bits);
        }
      }
    }
  }
}
