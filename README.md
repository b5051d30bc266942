# planetiler long-to-long map and feature builder, modelled in Dafny

This project models two pieces of planetiler:

- **`ArrayLongLongMapRam`** is the in-memory `LongLongMap`. It maps `long` keys, such as OSM node ids, to `long` values, such as packed coordinates.
  - Each key owns the 8 bytes at byte address `key << 3`.
  - The high bits of that address pick a segment. Each segment is a byte buffer of `2^segmentBits` bytes, allocated on first use.
  - The low bits pick the slot inside the segment.
  - Producers write through `Writer`s. Each writer caches its current segment and refuses to go back to an earlier one.
  - `get` answers `MISSING_VALUE` for a key that has no segment, or whose stored word is 0.
- **`FeatureCollector` / `FeatureCollector.Feature`** form the builder that a profile uses to emit output features. The model covers:
  - zoom ranges clamped to the configured range;
  - sort keys and their descending form;
  - the attribute map, whose values may be zoom functions;
  - the attributes at a given zoom;
  - the ordered list of emitted features.

Files:

- `options.dfy`: `Option`, which stands for a Java reference that may be null.
- `long_codec.dfy`: Java `long` and `ByteBuffer.putLong`/`getLong`, which store a long as 8 big-endian bytes. Includes the round-trip lemmas.
- `addressing.dfy`: how a key becomes a segment index and an offset. Proves that slots are aligned, injective and disjoint, and that the writer and the reader compute the same slot. Also holds the as-written Java arithmetic used under Findings.
- `array_long_long_map_ram.dfy`: class `ArrayLongLongMapRam` and class `Writer`.
  - The segment list is a `seq<Option<array<Byte>>>`; `None` stands for Java's `null`.
  - `Valid()` holds four facts: buffer sizes are right, buffers are distinct, `numSegments` counts the filled slots, and the list never exceeds `Integer.MAX_VALUE` slots.
  - The ghost function `Stored(key)` is the raw word in a key's slot, and the contracts are stated in terms of it.
- `feature_collector.dfy`: classes `FeatureCollector` and `Feature`, and the attribute functions.
- `scenarios.dfy`: client methods that drive the map and whose results follow from the contracts alone:
  - keys that decrease within one segment;
  - one value per segment;
  - two writers interleaved;
  - a writer refused when it goes back to an earlier segment.

## Model

| member | source | states |
|---|---|---|
| `LongCodec.GetLong` | src/main/java/com/onthegomap/planetiler/collection/ArrayLongLongMapRam.java:86 | The 8 bytes at the index are exactly the big-endian encoding of the `long` returned. |
| `LongCodec.PutLong` | src/main/java/com/onthegomap/planetiler/collection/ArrayLongLongMapRam.java:69 | `putLong` rewrites exactly the 8 bytes at the index. Those bytes then read back as the value. Every 8-byte window that does not overlap them reads as before. |
| `LongCodec.DecodeEncode` | src/main/java/com/onthegomap/planetiler/collection/ArrayLongLongMapRam.java:69-86 | `getLong` of what `putLong` wrote gives back the written `long`, negative values included (two's complement, big-endian). |
| `LongCodec.EncodeDecode` | src/main/java/com/onthegomap/planetiler/collection/ArrayLongLongMapRam.java:69-86 | The other direction: writing back the long read from 8 bytes reproduces those bytes. |
| `LongCodec.DecodeZero` | src/main/java/com/onthegomap/planetiler/collection/ArrayLongLongMapRam.java:40-87 | 8 bytes read as 0 exactly when all of them are zero. So a freshly allocated segment reads as 0 in every slot. |
| `LongCodec.FromBigEndian` | src/main/java/com/onthegomap/planetiler/collection/ArrayLongLongMapRam.java:86 | The unsigned number held in n big-endian bytes is below 256^n, so 8 bytes always decode to a `long`. |
| `LongCodec.FromToBigEndian` | src/main/java/com/onthegomap/planetiler/collection/ArrayLongLongMapRam.java:69-86 | A number below 256^n survives conversion to n big-endian bytes and back. |
| `Addressing.ByteAddress` | src/main/java/com/onthegomap/planetiler/collection/ArrayLongLongMapRam.java:55-76 | `key << 3` is a multiple of 8 whose eighth is the key, so every key owns its own 8-byte slot. |
| `Addressing.SegmentIndex` | src/main/java/com/onthegomap/planetiler/collection/ArrayLongLongMapRam.java:56-77 | `(key << 3) >>> segmentBits` is the segment whose `2^segmentBits`-byte range contains the key's byte address. |
| `Addressing.OffsetInSegment` | src/main/java/com/onthegomap/planetiler/collection/ArrayLongLongMapRam.java:30-31 | The slot offset `(key << 3) & segmentMask` is a multiple of 8, and its 8 bytes fit inside a segment of `1 << segmentBits` bytes. |
| `Addressing.WriterSlotIsReaderSlot` | src/main/java/com/onthegomap/planetiler/collection/ArrayLongLongMapRam.java:55-81 | The writer's slot `offset - segmentOffset` (with `segmentOffset = segment << segmentBits`) equals the reader's slot `(key << 3) & segmentMask`. |
| `Addressing.SlotInjective` | src/main/java/com/onthegomap/planetiler/collection/ArrayLongLongMapRam.java:76-81 | Two keys with the same segment and the same offset are the same key. |
| `Addressing.SlotsDisjoint` | src/main/java/com/onthegomap/planetiler/collection/ArrayLongLongMapRam.java:55-69 | Two different keys in one segment own 8-byte slots that do not overlap. |
| `Addressing.JavaByteAddress` | src/main/java/com/onthegomap/planetiler/collection/ArrayLongLongMapRam.java:55 | Java's wrapping `key << 3`, read as the unsigned 64-bit number that `>>>` and `&` see: below 2^64 and congruent to `8 * key` modulo 2^64. |
| `Addressing.JavaSegmentIndex` | src/main/java/com/onthegomap/planetiler/collection/ArrayLongLongMapRam.java:56 | Java's `>>> segmentBits` on the wrapped address: the segment whose range contains it. |
| `Addressing.JavaOffsetInSegment` | src/main/java/com/onthegomap/planetiler/collection/ArrayLongLongMapRam.java:81 | Java's `& segmentMask` on the wrapped address: below the segment size, and segment start plus offset gives back the address. |
| `Addressing.JavaAddressAgrees` | src/main/java/com/onthegomap/planetiler/collection/ArrayLongLongMapRam.java:55-56 | For keys in [0, 2^61), Java's wrapping `key << 3`, `>>>` and `&` give exactly the unbounded segment and offset. |
| `Addressing.ShiftWrapAliasesKeyZero` | src/main/java/com/onthegomap/planetiler/collection/ArrayLongLongMapRam.java:55-62 | As written, keys 2^61 and `Long.MIN_VALUE` get key 0's segment and offset. That segment passes the `Integer.MAX_VALUE` check (see Findings). |
| `Addressing.ToInt` | src/main/java/com/onthegomap/planetiler/collection/ArrayLongLongMapRam.java:77 | `(int)` narrowing keeps the low 32 bits: the result is an `int` congruent to the input modulo 2^32. Values in [0, `Integer.MAX_VALUE`] are unchanged. |
| `LongLongMapRam.CountAllocatedAppendEmpty` | src/main/java/com/onthegomap/planetiler/collection/ArrayLongLongMapRam.java:35-37 | Padding the list with `null` does not change the number of allocated segments. |
| `LongLongMapRam.CountAllocatedFill` | src/main/java/com/onthegomap/planetiler/collection/ArrayLongLongMapRam.java:38-40 | Filling one empty slot raises the allocated count by exactly one. |
| `LongLongMapRam.MemoryEstimate` | src/main/java/com/onthegomap/planetiler/collection/ArrayLongLongMapRam.java:96-99 | The formula of lines 97-98 over the slot count and the allocated count; it is at least the byte-array part. Its monotonicity is stated by `MemoryEstimateMonotone` and `EstimateNeverDecreases`. |
| `LongLongMapRam.MemoryEstimateMonotone` | src/main/java/com/onthegomap/planetiler/collection/ArrayLongLongMapRam.java:96-99 | With a monotone object-array estimate, the memory estimate never decreases as slots are added and segments allocated. |
| `LongLongMapRam.ArrayLongLongMapRam.constructor` | src/main/java/com/onthegomap/planetiler/collection/ArrayLongLongMapRam.java:27-32 | Sets `segmentSize = 2^segmentBits` and `segmentMask = segmentSize - 1`. The map starts with no segments, and every key reads as `MISSING_VALUE`. |
| `LongLongMapRam.ArrayLongLongMapRam.WithDefaultSegments` | src/main/java/com/onthegomap/planetiler/collection/ArrayLongLongMapRam.java:23-25 | The one-argument constructor uses 20 segment bits, that is 1 MiB segments. |
| `LongLongMapRam.ArrayLongLongMapRam.GetOrCreateSegment` | src/main/java/com/onthegomap/planetiler/collection/ArrayLongLongMapRam.java:34-43 | Afterwards the list is longer than `index` and slot `index` holds the returned buffer. The list grows exactly to `index + 1` when it was shorter. Every other old slot keeps its value, and new slots are `null`. A filled slot is returned as is, and the count stays. An empty slot gets a fresh zero-filled buffer of `segmentSize` bytes, and `numSegments` goes up by 1. No key's stored value changes. |
| `LongLongMapRam.ArrayLongLongMapRam.PadSegments` | src/main/java/com/onthegomap/planetiler/collection/ArrayLongLongMapRam.java:35-37 | The `while` loop appends `null` until `index` is a slot. The old prefix is unchanged, and the count and all stored values stay. |
| `LongLongMapRam.ArrayLongLongMapRam.FillSegment` | src/main/java/com/onthegomap/planetiler/collection/ArrayLongLongMapRam.java:38-41 | Installing a new buffer in an empty slot increments `numSegments` and keeps every key's stored value. |
| `LongLongMapRam.ArrayLongLongMapRam.NewWriter` | src/main/java/com/onthegomap/planetiler/collection/ArrayLongLongMapRam.java:46-51 | A new writer is bound to this map with `lastSegment == -1`. |
| `LongLongMapRam.ArrayLongLongMapRam.Get` | src/main/java/com/onthegomap/planetiler/collection/ArrayLongLongMapRam.java:74-88 | The result is the key's stored word, or `MISSING_VALUE` when that word is 0. It is `MISSING_VALUE` when the segment index is at or past the list's size. It is never 0. |
| `LongLongMapRam.ArrayLongLongMapRam.GetAsWritten` | src/main/java/com/onthegomap/planetiler/collection/ArrayLongLongMapRam.java:76-87 | `get` with the `(int)` cast, as written. It agrees with `Get` while the segment index is at most `Integer.MAX_VALUE`. It throws (`None`) when the cast index is negative. |
| `LongLongMapRam.ArrayLongLongMapRam.TruncatedIndexAliasesKeyZero` | src/main/java/com/onthegomap/planetiler/collection/ArrayLongLongMapRam.java:76-82 | With 1 MiB segments, as-written `get(2^49)` answers `get(0)`, though key 2^49's segment index is past what any writer accepts. |
| `LongLongMapRam.ArrayLongLongMapRam.NegativeIndexThrows` | src/main/java/com/onthegomap/planetiler/collection/ArrayLongLongMapRam.java:77-82 | With 1 MiB segments, key 2^48 has segment index 2^31. The cast turns that negative, so as-written `get(2^48)` throws, while the intended `get` answers `MISSING_VALUE`. |
| `LongLongMapRam.ArrayLongLongMapRam.UnwritableKeyIsMissing` | src/main/java/com/onthegomap/planetiler/collection/ArrayLongLongMapRam.java:59-79 | A key whose segment index no writer accepts always reads as `MISSING_VALUE`. |
| `LongLongMapRam.ArrayLongLongMapRam.DiskUsageBytes` | src/main/java/com/onthegomap/planetiler/collection/ArrayLongLongMapRam.java:90-93 | The in-memory map uses no disk. |
| `LongLongMapRam.ArrayLongLongMapRam.EstimateMemoryUsageBytes` | src/main/java/com/onthegomap/planetiler/collection/ArrayLongLongMapRam.java:95-99 | The estimate is the object-array estimate for all slots, `null`s included, plus the byte-array estimate per allocated segment. It never counts fewer segment arrays than the buffers the map owns. |
| `LongLongMapRam.ArrayLongLongMapRam.EstimateNeverDecreases` | src/main/java/com/onthegomap/planetiler/collection/ArrayLongLongMapRam.java:34-43 | The map's memory estimate never decreases from one state to a later one while the list only grows and segments are only added. Those are the only changes `getOrCreateSegment` and `put` make. |
| `LongLongMapRam.ArrayLongLongMapRam.BuffersCounted` | src/main/java/com/onthegomap/planetiler/collection/ArrayLongLongMapRam.java:20-40 | `numSegments` equals the number of distinct buffers in the segment list. |
| `LongLongMapRam.Writer.constructor` | src/main/java/com/onthegomap/planetiler/collection/ArrayLongLongMapRam.java:49-51 | A writer starts with `lastSegment = -1` and no cached buffer. |
| `LongLongMapRam.Writer.Put` | src/main/java/com/onthegomap/planetiler/collection/ArrayLongLongMapRam.java:53-70 | If the key's segment is before `lastSegment`, the result is `IllegalStateException` (`OutOfOrder(key)`). If it moves to a new segment at or past `Integer.MAX_VALUE`, the result is `IllegalArgumentException` (`SegmentOverflow`). Both errors change nothing. On success only the key's stored value changes, to `value`, and `get(key)` returns `value`, or `MISSING_VALUE` when `value` is 0. Other keys are unaffected, and keys may decrease within the current segment. The list only grows and filled slots are never replaced. The segment count rises by 1 exactly when the key's segment had no buffer. A put within the current segment leaves the list and the count, and therefore the memory estimate, as they were. |
| `LongLongMapRam.Writer.MoveTo` | src/main/java/com/onthegomap/planetiler/collection/ArrayLongLongMapRam.java:64-66 | Moving to a later segment caches its buffer and `segmentOffset`. Stored values are unchanged. |
| `LongLongMapRam.Writer.WriteSlot` | src/main/java/com/onthegomap/planetiler/collection/ArrayLongLongMapRam.java:69 | `putLong` into the cached buffer changes exactly the key's stored value. |
| `LongLongMapRam.Writer.CacheSurvivesGrowth` | src/main/java/com/onthegomap/planetiler/collection/ArrayLongLongMapRam.java:34-43 | A writer's cached segment stays valid while other writers grow the shared list, because filled slots are never replaced. |
| `Scenarios.DecreasingKeysInOneSegment` | src/main/java/com/onthegomap/planetiler/collection/ArrayLongLongMapRam.java:53-87 | Keys 5 then 4 on one writer both succeed and read back 42 and 7. |
| `Scenarios.OneValuePerSegment` | src/main/java/com/onthegomap/planetiler/collection/ArrayLongLongMapRam.java:27-87 | With 3 segment bits, keys 0, 1 and 2 each allocate a segment and read back. An unwritten key is missing. |
| `Scenarios.TwoWritersDisjointRanges` | src/main/java/com/onthegomap/planetiler/collection/ArrayLongLongMapRam.java:46-87 | Interleaved puts from two writers on disjoint segments all read back. |
| `Scenarios.TwoWritersStarted` | src/main/java/com/onthegomap/planetiler/collection/ArrayLongLongMapRam.java:46-70 | A second writer's put into segment 16 keeps the first writer's value and cache intact. |
| `Scenarios.LowWriterStarted` | src/main/java/com/onthegomap/planetiler/collection/ArrayLongLongMapRam.java:46-70 | A first put into segment 0 stores its value and leaves the writer in segment 0. |
| `Scenarios.BackwardsSegmentRefused` | src/main/java/com/onthegomap/planetiler/collection/ArrayLongLongMapRam.java:56-58 | After a put in segment 16, key 3 (segment 0) is refused with `OutOfOrder(3)`. The earlier value is still there and key 3 stays missing. |
| `Scenarios.PutNeverShrinksEstimate` | src/main/java/com/onthegomap/planetiler/collection/ArrayLongLongMapRam.java:53-99 | Across any `put`, failed or not, the memory estimate is at least what it was before, given a monotone object-array estimate. |
| `Features.DescendingSortKey` | src/main/java/com/onthegomap/planetiler/FeatureCollector.java:175-177 | `-1 - s` is in [-4194304, 4194303] exactly when `s` is. |
| `Features.DescendingReversesOrder` | src/main/java/com/onthegomap/planetiler/FeatureCollector.java:168-177 | The descending key reverses the order of sort keys and is its own inverse. |
| `Features.NonNull` | src/main/java/com/onthegomap/planetiler/FeatureCollector.java:374-385 | Keeps exactly the entries whose value is not null, with their values. |
| `Features.AttrsAtZoom` | src/main/java/com/onthegomap/planetiler/FeatureCollector.java:323-340 | Its keys are a subset of the attributes. A key is kept exactly when its value at the zoom is neither null nor `""`, and no kept value is null or `""`. Values that are not zoom functions are carried over unchanged. |
| `Features.AttrsAtZoomWithoutZoomFunctions` | src/main/java/com/onthegomap/planetiler/FeatureCollector.java:323-352 | Without zoom functions, the attributes are the same at every zoom: the stored map minus its blank values. |
| `Features.Feature.constructor` | src/main/java/com/onthegomap/planetiler/FeatureCollector.java:131-150 | A new feature has sort key 0, the configured min and max zoom, no attributes, `attrsChangeByZoom` false and no label grid. |
| `Features.Feature.IsPolygon` | src/main/java/com/onthegomap/planetiler/FeatureCollector.java:160-162 | True exactly when the geometry's type is polygon. |
| `Features.Feature.SetSortKey` | src/main/java/com/onthegomap/planetiler/FeatureCollector.java:168-173 | Stores a key from [-4194304, 4194303]. Its frame is the sort key alone, so nothing else changes. The other setters are likewise framed to the fields they assign. |
| `Features.Feature.SetSortKeyDescending` | src/main/java/com/onthegomap/planetiler/FeatureCollector.java:175-177 | Stores `-1 - sortKey`, which stays in range. |
| `Features.Feature.SetMinZoom` | src/main/java/com/onthegomap/planetiler/FeatureCollector.java:189-192 | Stores `max(min, config.minzoom)`. The zoom range stays within the configured one. |
| `Features.Feature.SetMaxZoom` | src/main/java/com/onthegomap/planetiler/FeatureCollector.java:198-201 | Stores `min(max, config.maxzoom)`. The zoom range stays within the configured one. |
| `Features.Feature.SetZoomRange` | src/main/java/com/onthegomap/planetiler/FeatureCollector.java:179-183 | Both clamps are applied. A requested range that overlaps the configured range gives a non-empty range. |
| `Features.Feature.SetPointLabelGridPixelSize` | src/main/java/com/onthegomap/planetiler/FeatureCollector.java:305-308 | Stores the size function. A non-null one gives the feature a label grid. |
| `Features.Feature.SetPointLabelGridLimit` | src/main/java/com/onthegomap/planetiler/FeatureCollector.java:314-317 | Stores the limit function. A non-null one gives the feature a label grid. |
| `Features.Feature.HasLabelGrid` | src/main/java/com/onthegomap/planetiler/FeatureCollector.java:289-291 | True exactly when a label-grid size or limit is set. |
| `Features.Feature.SetAttr` | src/main/java/com/onthegomap/planetiler/FeatureCollector.java:358-368 | A null value leaves the attributes unchanged. Any other value becomes `attrs[key]` and leaves the other keys untouched. A zoom function sets `attrsChangeByZoom`, which is never cleared. |
| `Features.Feature.SetAttrs` | src/main/java/com/onthegomap/planetiler/FeatureCollector.java:374-385 | The attributes become the old ones overridden by the non-null entries. The flag is set iff it was set or some value is a zoom function. |
| `Features.Feature.PutAttrs` | src/main/java/com/onthegomap/planetiler/FeatureCollector.java:402-415 | Every entry is copied, nulls included. The flag is set iff it was set or some value is a zoom function. |
| `Features.Feature.SetAttrWithMinzoom` | src/main/java/com/onthegomap/planetiler/FeatureCollector.java:387-389 | Stores the zoom function "value from `minzoom` on" and sets the flag. |
| `Features.Feature.PutAttrsWithMinzoom` | src/main/java/com/onthegomap/planetiler/FeatureCollector.java:391-400 | Every entry is stored as its min-zoom function. The flag is set iff it was set or the map is non-empty. |
| `Features.Feature.ComputeAttrsAtZoom` | src/main/java/com/onthegomap/planetiler/FeatureCollector.java:323-340 | The loop builds exactly `AttrsAtZoom(attrs, zoom)`. |
| `Features.Feature.GetAttrsAtZoom` | src/main/java/com/onthegomap/planetiler/FeatureCollector.java:342-352 | Returns `attrs` itself, with no zoom function in it, while the flag is clear. Otherwise it returns the attributes at that zoom. |
| `Features.FeatureCollector.constructor` | src/main/java/com/onthegomap/planetiler/FeatureCollector.java:438-440 | A collector for one source feature starts with no output. |
| `Features.FeatureCollector.Iterator` | src/main/java/com/onthegomap/planetiler/FeatureCollector.java:34-36 | Yields the output features in emission order. |
| `Features.FeatureCollector.Geometry` | src/main/java/com/onthegomap/planetiler/FeatureCollector.java:38-42 | Appends exactly one fresh feature to the output, keeping the earlier ones in order. The new feature has the given layer and geometry, and the source id. It also has the default settings: sort key 0, the configured zoom range, no attributes, the zoom flag clear and no label grid. |
| `Features.FeatureCollector.FromSource` | src/main/java/com/onthegomap/planetiler/FeatureCollector.java:44-100 | In both cases the new feature has the default settings: the collector's config, sort key 0, the configured zoom range, no attributes, the zoom flag clear and no label grid. When the geometry is built, the feature gets it and is appended to the output, as `geometry` does. On a `GeometryException` the feature gets an empty geometry and the output is unchanged. |

## Left out

- Concurrency. `synchronized` on `getOrCreateSegment` and the `AtomicInteger` counter are ordinary sequential updates here.
  - Racing writers are not modelled, including two writers that write the same segment at the same moment.
  - Interleaved writers are covered only through `CacheSurvivesGrowth`.
- `LongLongMapRam.ArrayLongLongMapRam.constructor`: requires `3 <= segmentBits <= 30`. Outside that range Java breaks: below 3 bits a segment cannot hold one `long` and `putLong` throws; at 31 bits `1 << segmentBits` is negative.
- Keys outside [0, 2^61), where `key << 3` wraps around (see Findings). The `direct` flag (heap or off-heap buffer) and the empty `close()` are also left out.
- `MISSING_VALUE` is taken to be `Long.MIN_VALUE`. `LongLongMap.java` is not part of this model, and no property depends on the value except that it is not 0.
- `MemoryEstimator.estimateObjectArraySize` and `estimateByteArraySize`: `MemoryEstimator` is not part of this model, so both formulas are parameters.
- `ByteBuffer` is modelled as an array of bytes in its default big-endian order. `putLong`/`getLong` bounds exceptions cannot arise, because offsets are proved in range.
- Geometry construction in `FeatureCollector`:
  - JTS geometries are opaque values.
  - `point`/`line`/`polygon`/`centroid`/`centroidIfConvex`/`pointOnSurface` are merged into `FromSource`, with the construction result passed in.
  - Logging a `GeometryException` into `Stats` is left out.
  - `GeometryType.typeOf` is not part of this model; an empty collection is given type `Unknown`.
- Floating-point rendering hints are left out: buffer pixels, min pixel size, pixel tolerance, label-grid pixel size and limit at a zoom, including the assertion in `getPointLabelGridPixelSizeAtZoom`. The `(int, double)` label-grid setters are left out too, because they need `ZoomFunction.maxZoom`, which is not part of this model.
- `Features.Feature.GetAttrsAtZoom`: recomputes on every call instead of using the `CacheByZoom` memo. `CacheByZoom` is not part of this model. The real cache keeps answering the map it computed first, even after attributes change later. It also returns a value. While the flag is clear, Java returns the live `attrs` map itself, so a caller that changes that map changes the feature. Such a caller could even insert a zoom function without setting the flag. That aliasing is not modelled.
- `ZoomFunction.minZoom` is not part of this model. `MinZoomFunction` takes it to mean "the value from zoom `min` on, null below".
- Attribute values are null, strings, integers, booleans and zoom functions. Other Java objects and floating-point numbers are not distinguished.
- Small `Feature` members are left out:
  - `toString`;
  - `inheritAttrFromSource`, which needs `SourceFeature.getTag`;
  - `setNumPointsAttr`/`getNumPointsAttr`;
  - the plain getters, since the fields are readable directly;
  - the `Factory` record beyond the collector's constructor;
  - the `return this` used for call chaining.
- `Features.Feature.SetSortKey` and `SetZoomRange` turn Java `assert`s into preconditions. Java checks them only when assertions are enabled.

## Findings

| source | as written | input that shows it | evidently intended | confidence | as-written member | corrected member |
|---|---|---|---|---|---|---|
| src/main/java/com/onthegomap/planetiler/collection/ArrayLongLongMapRam.java:77-78 | `get` narrows the segment index with `(int)` before comparing it with `segments.size()`. | `segmentBits = 20`, key 2^49: the segment index is 2^32, which the cast turns into 0, so `get(2^49)` returns the value stored for key 0. Key 2^48 has index 2^31, which becomes negative, and `segments.get` throws. | A key whose segment does not exist, including every key no writer can store, reads as `MISSING_VALUE`. | not executed; follows from Java's narrowing rules | `LongLongMapRam.ArrayLongLongMapRam.GetAsWritten`, `LongLongMapRam.ArrayLongLongMapRam.TruncatedIndexAliasesKeyZero`, `LongLongMapRam.ArrayLongLongMapRam.NegativeIndexThrows` | `LongLongMapRam.ArrayLongLongMapRam.Get`, `LongLongMapRam.ArrayLongLongMapRam.UnwritableKeyIsMissing` |
| src/main/java/com/onthegomap/planetiler/collection/ArrayLongLongMapRam.java:55-62 | `key << 3` wraps for keys at or above 2^61 and for negative keys near `Long.MIN_VALUE`. The wrapped segment index can pass the `Integer.MAX_VALUE` check. | Key 2^61 or key `Long.MIN_VALUE`, any `segmentBits` in [3, 30]: both get segment 0 and offset 0. A new writer, or one still in segment 0, then overwrites key 0's slot. | Keys beyond the addressable range are refused rather than silently aliased, and distinct keys never share a slot. | not executed; follows from Java's shift semantics | `Addressing.JavaByteAddress`, `Addressing.ShiftWrapAliasesKeyZero` | `Addressing.SlotInjective` (keys restricted to [0, 2^61)) |
