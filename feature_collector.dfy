/**
 * `FeatureCollector` and its `Feature` builder: the output features a profile emits for one
 * source feature, each with a zoom range clamped to the configured one, a sort key, and an
 * attribute map whose values may depend on the zoom.
 */
module Features {
  import opened Options

  /** The part of `PlanetilerConfig` the builder reads: the configured zoom range. */
  datatype Config = Config(minzoom: int, maxzoom: int)

  datatype GeometryType = Unknown | Point | Line | Polygon

  /** A JTS geometry, kept opaque: `handle` stands for the geometry object itself. */
  datatype JtsGeometry = EmptyCollection | Shape(kind: GeometryType, handle: nat)

  /** `GeometryType.typeOf`; an empty geometry collection has no specific type. */
  function TypeOf(geom: JtsGeometry): GeometryType
  {
    match geom
    case EmptyCollection => Unknown
    case Shape(kind, _) => kind
  }

  /** What building a geometry from the source feature gave: a geometry or a `GeometryException`. */
  datatype GeometryResult = Built(geometry: JtsGeometry) | Failed(message: string)

  /** A `ZoomFunction`: for each zoom, the value to use there (possibly `Null`). */
  type ZoomFunction = int -> AttrValue

  /** An attribute value, one of the Java objects an attribute map holds. */
  datatype AttrValue =
    | Null
    | Str(s: string)
    | Num(n: int)
    | Bool(b: bool)
    | ZoomFn(apply: ZoomFunction)

  /** `ZoomFunction.minZoom(min, value)`: `value` from zoom `min` on, `Null` below it. */
  function MinZoomFunction(min: int, value: AttrValue): ZoomFunction
  {
    zoom => if zoom >= min then value else Null
  }

  const SORT_KEY_MIN: int := -4194304
  const SORT_KEY_MAX: int := 4194303

  predicate InSortKeyRange(sortKey: int)
  {
    SORT_KEY_MIN <= sortKey <= SORT_KEY_MAX
  }

  /** The key `setSortKeyDescending` stores: it maps the allowed range onto itself. */
  function DescendingSortKey(sortKey: int): (r: int)
    ensures InSortKeyRange(r) <==> InSortKeyRange(sortKey)
  {
    -1 - sortKey
  }

  /** The descending key reverses the order of sort keys, and applying it twice gives the key back. */
  lemma DescendingReversesOrder(a: int, b: int)
    ensures a < b <==> DescendingSortKey(a) > DescendingSortKey(b)
    ensures DescendingSortKey(DescendingSortKey(a)) == a
  {
  }

  /** A value that is dropped from the attributes at a zoom: `null` or the empty string. */
  predicate IsBlank(value: AttrValue)
  {
    value.Null? || (value.Str? && value.s == "")
  }

  /** A value as it stands at `zoom`: a zoom function is applied, anything else is itself. */
  function AtZoom(value: AttrValue, zoom: int): AttrValue
  {
    if value.ZoomFn? then value.apply(zoom) else value
  }

  predicate HasZoomFunction(m: map<string, AttrValue>)
  {
    exists k :: k in m && m[k].ZoomFn?
  }

  lemma HasZoomFunctionAdd(m: map<string, AttrValue>, key: string, value: AttrValue)
    requires key !in m
    ensures HasZoomFunction(m[key := value]) <==> HasZoomFunction(m) || value.ZoomFn?
  {
    if HasZoomFunction(m) {
      var k :| k in m && m[k].ZoomFn?;
      assert m[key := value][k].ZoomFn?;
    }
    if value.ZoomFn? {
      assert m[key := value][key].ZoomFn?;
    }
  }

  lemma HasZoomFunctionUnion(a: map<string, AttrValue>, b: map<string, AttrValue>)
    ensures HasZoomFunction(a + b) ==> HasZoomFunction(a) || HasZoomFunction(b)
  {
    if HasZoomFunction(a + b) {
      var k :| k in a + b && (a + b)[k].ZoomFn?;
      if k in b {
        assert b[k].ZoomFn?;
      } else {
        assert a[k].ZoomFn?;
      }
    }
  }

  /** The entries of `m` whose value is not `null`. */
  function NonNull(m: map<string, AttrValue>): (r: map<string, AttrValue>)
    ensures r.Keys <= m.Keys
    ensures forall k :: k in m ==> (k in r <==> !m[k].Null?)
    ensures forall k :: k in r ==> r[k] == m[k]
  {
    map k | k in m && !m[k].Null? :: m[k]
  }

  lemma NonNullAdd(m: map<string, AttrValue>, key: string, value: AttrValue)
    requires key !in m
    ensures NonNull(m[key := value]) == if value.Null? then NonNull(m) else NonNull(m)[key := value]
  {
  }

  /**
   * The attributes at `zoom`: each value taken at that zoom, with `null` and `""` results left
   * out. Keys only disappear, and a value that is not a zoom function is carried over unchanged.
   */
  function AttrsAtZoom(attrs: map<string, AttrValue>, zoom: int): (r: map<string, AttrValue>)
    ensures r.Keys <= attrs.Keys
    ensures forall k :: k in r ==> !IsBlank(r[k])
    ensures forall k :: k in attrs ==> (k in r <==> !IsBlank(AtZoom(attrs[k], zoom)))
    ensures forall k :: k in attrs && !attrs[k].ZoomFn? && !IsBlank(attrs[k]) ==> k in r && r[k] == attrs[k]
  {
    map k | k in attrs && !IsBlank(AtZoom(attrs[k], zoom)) :: AtZoom(attrs[k], zoom)
  }

  /**
   * Without zoom functions the attributes are the same at every zoom: the stored map with its
   * blank values removed.
   */
  lemma AttrsAtZoomWithoutZoomFunctions(attrs: map<string, AttrValue>, z1: int, z2: int)
    requires !HasZoomFunction(attrs)
    ensures AttrsAtZoom(attrs, z1) == AttrsAtZoom(attrs, z2)
    ensures AttrsAtZoom(attrs, z1) == map k | k in attrs && !IsBlank(attrs[k]) :: attrs[k]
  {
    var dropped := map k | k in attrs && !IsBlank(attrs[k]) :: attrs[k];
    assert AttrsAtZoom(attrs, z1) == dropped;
    assert AttrsAtZoom(attrs, z2) == dropped;
  }

  /** `FeatureCollector.Feature`. */
  class Feature {
    const config: Config
    const layer: string
    const geom: JtsGeometry
    const geometryType: GeometryType
    const sourceId: int
    var sortKey: int
    var minzoom: int
    var maxzoom: int
    var attrs: map<string, AttrValue>
    /** Set once any attribute value is a zoom function; never cleared. */
    var attrsChangeByZoom: bool
    var labelGridPixelSize: Option<ZoomFunction>
    var labelGridLimit: Option<ZoomFunction>

    /**
     * The zoom range lies inside the configured one, the sort key is in its allowed range, and
     * `attrsChangeByZoom` is set whenever some attribute is a zoom function.
     */
    ghost predicate Valid()
      reads this
    {
      && geometryType == TypeOf(geom)
      && config.minzoom <= minzoom
      && maxzoom <= config.maxzoom
      && InSortKeyRange(sortKey)
      && (HasZoomFunction(attrs) ==> attrsChangeByZoom)
    }

    /** `Feature(layer, geom, sourceId)`: sort key 0, the configured zoom range, no attributes. */
    constructor (config: Config, layer: string, geom: JtsGeometry, sourceId: int)
      ensures Valid()
      ensures this.config == config && this.layer == layer && this.geom == geom && this.sourceId == sourceId
      ensures geometryType == TypeOf(geom)
      ensures sortKey == 0 && minzoom == config.minzoom && maxzoom == config.maxzoom
      ensures attrs == map[] && !attrsChangeByZoom
      ensures !HasLabelGrid()
    {
      this.config := config;
      this.layer := layer;
      this.geom := geom;
      this.geometryType := TypeOf(geom);
      this.sourceId := sourceId;
      sortKey := 0;
      minzoom := config.minzoom;
      maxzoom := config.maxzoom;
      attrs := map[];
      attrsChangeByZoom := false;
      labelGridPixelSize := None;
      labelGridLimit := None;
    }

    /** `isPolygon`: the feature's geometry is a polygon. */
    function IsPolygon(): (r: bool)
      reads this
      requires Valid()
      ensures r <==> TypeOf(geom) == Polygon
    {
      geometryType == Polygon
    }

    /** `setSortKey`: the key must be in [-4194304, 4194303] (a Java `assert`). */
    method SetSortKey(sortKey: int)
      requires Valid() && InSortKeyRange(sortKey)
      modifies this`sortKey
      ensures Valid() && this.sortKey == sortKey
    {
      this.sortKey := sortKey;
    }

    /** `setSortKeyDescending`: store the key that sorts in the reverse order. */
    method SetSortKeyDescending(sortKey: int)
      requires Valid() && InSortKeyRange(sortKey)
      modifies this`sortKey
      ensures Valid() && this.sortKey == DescendingSortKey(sortKey)
    {
      SetSortKey(DescendingSortKey(sortKey));
    }

    /** `setMinZoom`: never below the configured minimum. */
    method SetMinZoom(min: int)
      requires Valid()
      modifies this`minzoom
      ensures Valid()
      ensures minzoom == if min >= config.minzoom then min else config.minzoom
    {
      minzoom := if min >= config.minzoom then min else config.minzoom;
    }

    /** `setMaxZoom`: never above the configured maximum. */
    method SetMaxZoom(max: int)
      requires Valid()
      modifies this`maxzoom
      ensures Valid()
      ensures maxzoom == if max <= config.maxzoom then max else config.maxzoom
    {
      maxzoom := if max <= config.maxzoom then max else config.maxzoom;
    }

    /** `setZoomRange`: both bounds at once; `min <= max` is a Java `assert`. */
    method SetZoomRange(min: int, max: int)
      requires Valid() && min <= max
      modifies this`minzoom, this`maxzoom
      ensures Valid()
      ensures minzoom == if min >= config.minzoom then min else config.minzoom
      ensures maxzoom == if max <= config.maxzoom then max else config.maxzoom
      ensures config.minzoom <= config.maxzoom && min <= config.maxzoom && config.minzoom <= max ==> minzoom <= maxzoom
    {
      SetMinZoom(min);
      SetMaxZoom(max);
    }

    /** `setPointLabelGridPixelSize(ZoomFunction)`. */
    method SetPointLabelGridPixelSize(labelGridSize: Option<ZoomFunction>)
      requires Valid()
      modifies this`labelGridPixelSize
      ensures Valid() && labelGridPixelSize == labelGridSize
      ensures labelGridSize.Some? ==> HasLabelGrid()
    {
      labelGridPixelSize := labelGridSize;
    }

    /** `setPointLabelGridLimit(ZoomFunction)`. */
    method SetPointLabelGridLimit(limit: Option<ZoomFunction>)
      requires Valid()
      modifies this`labelGridLimit
      ensures Valid() && labelGridLimit == limit
      ensures limit.Some? ==> HasLabelGrid()
    {
      labelGridLimit := limit;
    }

    /** `hasLabelGrid`: a label grid size or limit has been set. */
    function HasLabelGrid(): (r: bool)
      reads this
      ensures r <==> labelGridPixelSize != None || labelGridLimit != None
    {
      labelGridPixelSize.Some? || labelGridLimit.Some?
    }

    /**
     * `setAttr(key, value)`: a `null` value is ignored; any other value replaces `key`'s and
     * leaves the other keys alone. A zoom function sets `attrsChangeByZoom`.
     */
    method SetAttr(key: string, value: AttrValue)
      requires Valid()
      modifies this`attrs, this`attrsChangeByZoom
      ensures Valid()
      ensures attrs == if value.Null? then old(attrs) else old(attrs)[key := value]
      ensures attrsChangeByZoom == (old(attrsChangeByZoom) || value.ZoomFn?)
    {
      if value.ZoomFn? {
        attrsChangeByZoom := true;
      }
      if !value.Null? {
        attrs := attrs[key := value];
      }
    }

    /** `setAttr(Map)`: `setAttr` for each entry, so `null` values are skipped. */
    method SetAttrs(keys: map<string, AttrValue>)
      requires Valid()
      modifies this`attrs, this`attrsChangeByZoom
      ensures Valid()
      ensures attrs == old(attrs) + NonNull(keys)
      ensures attrsChangeByZoom == (old(attrsChangeByZoom) || HasZoomFunction(keys))
    {
      var remaining := keys.Keys;
      while remaining != {}
        invariant remaining <= keys.Keys
        invariant Valid()
        invariant attrs == old(attrs) + NonNull(keys - remaining)
        invariant attrsChangeByZoom == (old(attrsChangeByZoom) || HasZoomFunction(keys - remaining))
        decreases remaining
      {
        var key :| key in remaining;
        var value := keys[key];
        ghost var done := keys - remaining;
        remaining := remaining - {key};
        assert keys - remaining == done[key := value];
        NonNullAdd(done, key, value);
        HasZoomFunctionAdd(done, key, value);
        SetAttr(key, value);
      }
      assert keys - remaining == keys;
    }

    /** `putAttrs`: copy every entry, `null` values included. */
    method PutAttrs(m: map<string, AttrValue>)
      requires Valid()
      modifies this`attrs, this`attrsChangeByZoom
      ensures Valid()
      ensures attrs == old(attrs) + m
      ensures attrsChangeByZoom == (old(attrsChangeByZoom) || HasZoomFunction(m))
    {
      var remaining := m.Keys;
      while remaining != {}
        invariant remaining <= m.Keys
        invariant attrs == old(attrs)
        invariant attrsChangeByZoom == old(attrsChangeByZoom)
        invariant !HasZoomFunction(m - remaining)
        decreases remaining
      {
        var key :| key in remaining;
        if m[key].ZoomFn? {
          attrsChangeByZoom := true;
          assert HasZoomFunction(m) by { assert m[key].ZoomFn?; }
          break;
        }
        ghost var done := m - remaining;
        remaining := remaining - {key};
        assert m - remaining == done[key := m[key]];
        HasZoomFunctionAdd(done, key, m[key]);
      }
      if remaining == {} {
        assert m - remaining == m;
      }
      HasZoomFunctionUnion(attrs, m);
      attrs := attrs + m;
    }

    /** `setAttrWithMinzoom`: the value, shown only from zoom `minzoom` on. */
    method SetAttrWithMinzoom(key: string, value: AttrValue, minzoom: int)
      requires Valid()
      modifies this`attrs, this`attrsChangeByZoom
      ensures Valid()
      ensures attrs == old(attrs)[key := ZoomFn(MinZoomFunction(minzoom, value))]
      ensures attrsChangeByZoom
    {
      SetAttr(key, ZoomFn(MinZoomFunction(minzoom, value)));
    }

    /** `putAttrsWithMinzoom`: `setAttrWithMinzoom` for each entry. */
    method PutAttrsWithMinzoom(m: map<string, AttrValue>, minzoom: int)
      requires Valid()
      modifies this`attrs, this`attrsChangeByZoom
      ensures Valid()
      ensures attrs == old(attrs) + map k | k in m :: ZoomFn(MinZoomFunction(minzoom, m[k]))
      ensures attrsChangeByZoom == (old(attrsChangeByZoom) || m != map[])
    {
      var remaining := m.Keys;
      while remaining != {}
        invariant remaining <= m.Keys
        invariant Valid()
        invariant attrs == old(attrs) + map k | k in m && k !in remaining :: ZoomFn(MinZoomFunction(minzoom, m[k]))
        invariant attrsChangeByZoom == (old(attrsChangeByZoom) || remaining != m.Keys)
        decreases remaining
      {
        var key :| key in remaining;
        SetAttrWithMinzoom(key, m[key], minzoom);
        remaining := remaining - {key};
      }
      assert m != map[] <==> m.Keys != {};
    }

    /** `computeAttrsAtZoom`: build the attributes at `zoom` into a fresh map. */
    method ComputeAttrsAtZoom(zoom: int) returns (result: map<string, AttrValue>)
      ensures result == AttrsAtZoom(attrs, zoom)
    {
      result := map[];
      var remaining := attrs.Keys;
      while remaining != {}
        invariant remaining <= attrs.Keys
        invariant result == AttrsAtZoom(attrs - remaining, zoom)
        decreases remaining
      {
        var key :| key in remaining;
        var value := attrs[key];
        if value.ZoomFn? {
          value := value.apply(zoom);
        }
        ghost var done := attrs - remaining;
        remaining := remaining - {key};
        assert attrs - remaining == done[key := attrs[key]];
        if !value.Null? && !(value.Str? && value.s == "") {
          result := result[key := value];
          assert AttrsAtZoom(attrs - remaining, zoom) == AttrsAtZoom(done, zoom)[key := value];
        } else {
          assert AttrsAtZoom(attrs - remaining, zoom) == AttrsAtZoom(done, zoom);
        }
      }
      assert attrs - remaining == attrs;
    }

    /**
     * `getAttrsAtZoom`: the stored map itself while no value depends on the zoom, the
     * attributes at `zoom` otherwise.
     */
    method GetAttrsAtZoom(zoom: int) returns (result: map<string, AttrValue>)
      requires Valid()
      ensures attrsChangeByZoom ==> result == AttrsAtZoom(attrs, zoom)
      ensures !attrsChangeByZoom ==> result == attrs && !HasZoomFunction(result)
    {
      if !attrsChangeByZoom {
        result := attrs;
      } else {
        result := ComputeAttrsAtZoom(zoom);
      }
    }
  }

  /** `FeatureCollector`: the features emitted for one source feature, in emission order. */
  class FeatureCollector {
    const sourceId: int
    const config: Config
    var output: seq<Feature>

    /** `Factory.get(source)`: a collector for the source feature with id `sourceId`. */
    constructor (sourceId: int, config: Config)
      ensures this.sourceId == sourceId && this.config == config && output == []
    {
      this.sourceId := sourceId;
      this.config := config;
      output := [];
    }

    /** `iterator()`: the features in the order they were emitted. */
    function Iterator(): (features: seq<Feature>)
      reads this
      ensures |features| == |output| && forall i :: 0 <= i < |output| ==> features[i] == output[i]
    {
      output
    }

    /** `geometry(layer, geometry)`: a new feature for the source, appended to the output. */
    method Geometry(layer: string, geometry: JtsGeometry) returns (feature: Feature)
      modifies this`output
      ensures output == old(output) + [feature]
      ensures fresh(feature) && feature.Valid()
      ensures feature.layer == layer && feature.geom == geometry && feature.sourceId == sourceId
      ensures feature.config == config && feature.attrs == map[] && feature.sortKey == 0
      ensures feature.minzoom == config.minzoom && feature.maxzoom == config.maxzoom
      ensures !feature.attrsChangeByZoom && !feature.HasLabelGrid()
    {
      feature := new Feature(config, layer, geometry, sourceId);
      output := output + [feature];
    }

    /**
     * `point`, `line`, `polygon`, `centroid`, `centroidIfConvex` and `pointOnSurface`, given
     * what building the geometry from the source gave: on success the same as `geometry`; on a
     * `GeometryException` a feature with an empty geometry that is not emitted.
     */
    method FromSource(layer: string, built: GeometryResult) returns (feature: Feature)
      modifies this`output
      ensures fresh(feature) && feature.Valid()
      ensures feature.layer == layer && feature.sourceId == sourceId
      ensures feature.config == config && feature.attrs == map[] && feature.sortKey == 0
      ensures feature.minzoom == config.minzoom && feature.maxzoom == config.maxzoom
      ensures !feature.attrsChangeByZoom && !feature.HasLabelGrid()
      ensures built.Built? ==> output == old(output) + [feature] && feature.geom == built.geometry
      ensures built.Failed? ==> output == old(output) && feature.geom == EmptyCollection
    {
      match built
      case Built(geometry) =>
        feature := Geometry(layer, geometry);
      case Failed(_) =>
        feature := new Feature(config, layer, EmptyCollection, sourceId);
    }
  }
}
