/**
 * The server's room-polygon parser (server/src/parser/polygon_parser.py): every feature
 * of the polygon layer becomes one `Polygon` per level it spans, and path nodes are
 * placed in the first same-level polygon that contains them. Shapely's containment test
 * is the parameter `contains`.
 */
module PolygonParser {
  import opened Wrappers
  import opened Text
  import opened MapTypes

  /** A polygon-layer feature: its rings of `[lon, lat]` vertices and its properties. */
  datatype PolyFeature = PolyFeature(rings: seq<seq<seq<real>>>, properties: Tags)

  /**
   * An entry of the parser's list of geodesy polygons: the polygon's id, one level it
   * spans, the shapely polygon (given by its vertices) and the feature's properties.
   */
  datatype GeodesyEntry = GeodesyEntry(id: int, level: Value, polygon: seq<LatLon>, tags: Tags)

  /** Shapely's `Polygon.contains(Point)`: a polygon's vertices and a point, both as (lat, lon). */
  type Containment = (seq<LatLon>, LatLon) -> bool

  /**
   * A string level's tokens all read as floats: otherwise `float` raises `ValueError`,
   * which `load_polygons` does not catch (it catches `AttributeError` only).
   */
  predicate LevelParses(level: Value) {
    level.Str? ==> AllFloats(Split(level.s, ";"))
  }

  /** Every token reads as a float. */
  predicate AllFloats(tokens: seq<string>) {
    forall i :: 0 <= i < |tokens| ==> PyFloat(tokens[i]).Some?
  }

  /** The floats the tokens read as, in token order. */
  function Floats(tokens: seq<string>): (fs: seq<Value>)
    requires AllFloats(tokens)
    ensures |fs| == |tokens|
  {
    if |tokens| == 0 then []
    else [Real(PyFloat(tokens[0]).value)] + Floats(tokens[1..])
  }

  /** The `i`-th float is what the `i`-th token reads as. */
  lemma {:induction false} FloatsAt(tokens: seq<string>, i: nat)
    requires AllFloats(tokens) && i < |tokens|
    ensures Floats(tokens)[i] == Real(PyFloat(tokens[i]).value)
    decreases i
  {
    if i > 0 {
      assert AllFloats(tokens[1..]) by {
        forall j | 0 <= j < |tokens[1..]|
          ensures PyFloat(tokens[1..][j]).Some?
        {
          assert tokens[1..][j] == tokens[j + 1];
        }
      }
      FloatsAt(tokens[1..], i - 1);
    }
  }

  /**
   * What `load_polygons` needs of a feature's shape: a first ring that is not empty
   * (`max` of an empty list raises), vertices with two coordinates and a "level"
   * property whose tokens read as floats.
   */
  predicate Shaped(f: PolyFeature) {
    |f.rings| >= 1 && |f.rings[0]| >= 1
    && (forall v :: v in f.rings[0] ==> |v| >= 2)
    && "level" in f.properties && LevelParses(f.properties["level"])
  }

  /** The ring's vertices as (lat, lon): each `[lon, lat]` swapped, in ring order. */
  function Swapped(ring: seq<seq<real>>): (vs: seq<LatLon>)
    requires forall v :: v in ring ==> |v| >= 2
    ensures |vs| == |ring|
    ensures forall i :: 0 <= i < |ring| ==> vs[i] == (ring[i][1], ring[i][0])
  {
    seq(|ring|, i requires 0 <= i < |ring| => (ring[i][1], ring[i][0]))
  }

  /** Python `max` of a non-empty list. */
  function MaxOf(xs: seq<real>): (m: real)
    requires |xs| >= 1
    ensures m in xs && forall x :: x in xs ==> x <= m
  {
    if |xs| == 1 then xs[0]
    else
      var rest := MaxOf(xs[1..]);
      assert forall x :: x in xs ==> x == xs[0] || x in xs[1..];
      if xs[0] > rest then xs[0] else rest
  }

  /** Python `min` of a non-empty list. */
  function MinOf(xs: seq<real>): (m: real)
    requires |xs| >= 1
    ensures m in xs && forall x :: x in xs ==> m <= x
  {
    if |xs| == 1 then xs[0]
    else
      var rest := MinOf(xs[1..]);
      assert forall x :: x in xs ==> x == xs[0] || x in xs[1..];
      if xs[0] < rest then xs[0] else rest
  }

  function Lats(vs: seq<LatLon>): (r: seq<real>)
    ensures |r| == |vs| && forall i :: 0 <= i < |vs| ==> r[i] == vs[i].0
  {
    seq(|vs|, i requires 0 <= i < |vs| => vs[i].0)
  }

  function Lons(vs: seq<LatLon>): (r: seq<real>)
    ensures |r| == |vs| && forall i :: 0 <= i < |vs| ==> r[i] == vs[i].1
  {
    seq(|vs|, i requires 0 <= i < |vs| => vs[i].1)
  }

  /** `NE`: the largest latitude and the largest longitude. */
  function NorthEast(vs: seq<LatLon>): LatLon
    requires |vs| >= 1
  {
    (MaxOf(Lats(vs)), MaxOf(Lons(vs)))
  }

  /** `SW`: the smallest latitude and the smallest longitude. */
  function SouthWest(vs: seq<LatLon>): LatLon
    requires |vs| >= 1
  {
    (MinOf(Lats(vs)), MinOf(Lons(vs)))
  }

  /**
   * The box from `SW` to `NE` is the bounding box of the vertices: it holds every vertex,
   * and each of its four bounds is some vertex's coordinate.
   */
  lemma BoundingBox(vs: seq<LatLon>)
    requires |vs| >= 1
    ensures forall v :: v in vs ==> SouthWest(vs).0 <= v.0 <= NorthEast(vs).0 && SouthWest(vs).1 <= v.1 <= NorthEast(vs).1
    ensures exists i :: 0 <= i < |vs| && vs[i].0 == NorthEast(vs).0
    ensures exists i :: 0 <= i < |vs| && vs[i].1 == NorthEast(vs).1
    ensures exists i :: 0 <= i < |vs| && vs[i].0 == SouthWest(vs).0
    ensures exists i :: 0 <= i < |vs| && vs[i].1 == SouthWest(vs).1
  {
    var lats, lons := Lats(vs), Lons(vs);
    forall v | v in vs
      ensures SouthWest(vs).0 <= v.0 <= NorthEast(vs).0 && SouthWest(vs).1 <= v.1 <= NorthEast(vs).1
    {
      var i :| 0 <= i < |vs| && vs[i] == v;
      assert lats[i] in lats && lons[i] in lons;
    }
    var a :| 0 <= a < |lats| && lats[a] == MaxOf(lats);
    var b :| 0 <= b < |lons| && lons[b] == MaxOf(lons);
    var c :| 0 <= c < |lats| && lats[c] == MinOf(lats);
    var d :| 0 <= d < |lons| && lons[d] == MinOf(lons);
  }

  /**
   * `level_span`: a string level split on ';' into one float per token (a list of
   * levels, not a range); any other value as a span of its own.
   */
  function LevelSpan(level: Value): (span: seq<Value>)
    requires LevelParses(level)
    ensures |span| >= 1
  {
    match level
    case Str(s) => Floats(Split(s, ";"))
    case _ => [level]
  }

  /** A non-string level spans itself alone, unconverted. */
  lemma LevelSpanOther(level: Value)
    requires !level.Str?
    ensures LevelSpan(level) == [level]
  {
  }

  /**
   * A string level spans exactly one float per ';'-separated token, in token order, and
   * the tokens put back together are the level.
   */
  lemma LevelSpanTokens(s: string)
    requires LevelParses(Str(s))
    ensures |LevelSpan(Str(s))| == |Split(s, ";")|
    ensures forall i :: 0 <= i < |Split(s, ";")| ==> LevelSpan(Str(s))[i] == Real(PyFloat(Split(s, ";")[i]).value)
    ensures Join(Split(s, ";"), ";") == s
  {
    forall i | 0 <= i < |Split(s, ";")|
      ensures LevelSpan(Str(s))[i] == Real(PyFloat(Split(s, ";")[i]).value)
    {
      FloatsAt(Split(s, ";"), i);
    }
    SplitJoin(s, ";");
  }

  /** "a;b" reads as a level and spans the two levels a and b and nothing between them. */
  lemma LevelSpanTwo(a: nat, b: nat)
    ensures LevelParses(Str(ShowNat(a) + ";" + ShowNat(b)))
    ensures var span := LevelSpan(Str(ShowNat(a) + ";" + ShowNat(b)));
      |span| == 2 && span[0] == Real(a as real) && span[1] == Real(b as real)
  {
    SplitNumerals(a, b);
    PyFloatShowNat(a);
    PyFloatShowNat(b);
    TwoTokens(ShowNat(a) + ";" + ShowNat(b), ShowNat(a), ShowNat(b), a as real, b as real);
  }

  /** A level of two tokens that read as floats spans those two floats. */
  lemma TwoTokens(s: string, x: string, y: string, u: real, v: real)
    requires Split(s, ";") == [x, y] && PyFloat(x) == Some(u) && PyFloat(y) == Some(v)
    ensures LevelParses(Str(s)) && LevelSpan(Str(s)) == [Real(u), Real(v)]
  {
    TwoFloats(x, y, u, v);
  }

  lemma TwoFloats(x: string, y: string, u: real, v: real)
    requires PyFloat(x) == Some(u) && PyFloat(y) == Some(v)
    ensures AllFloats([x, y]) && Floats([x, y]) == [Real(u), Real(v)]
  {
    FloatsCons(y, []);
    FloatsCons(x, [y]);
    assert [x] + [y] == [x, y];
  }

  /** One more token in front gives one more float in front. */
  lemma FloatsCons(t: string, ts: seq<string>)
    requires PyFloat(t).Some? && AllFloats(ts)
    ensures AllFloats([t] + ts) && Floats([t] + ts) == [Real(PyFloat(t).value)] + Floats(ts)
  {
    var all := [t] + ts;
    assert all[0] == t && all[1..] == ts;
    forall i | 0 <= i < |all|
      ensures PyFloat(all[i]).Some?
    {
      if i > 0 {
        assert all[i] == ts[i - 1];
      }
    }
  }

  /** Two numerals joined by ';' split back into the two numerals. */
  lemma SplitNumerals(a: nat, b: nat)
    ensures Split(ShowNat(a) + ";" + ShowNat(b), ";") == [ShowNat(a), ShowNat(b)]
  {
    var x, y := ShowNat(a), ShowNat(b);
    ShowIntChars(a, ';');
    ShowIntChars(b, ';');
    assert ShowInt(a) == x && ShowInt(b) == y;
    assert x + ";" + y == x + [';'] + y;
    SplitTwo(x, y, ';');
  }

  /** The levels a feature spans. */
  function FeatureLevels(f: PolyFeature): (span: seq<Value>)
    requires Shaped(f)
    ensures |span| >= 1
  {
    LevelSpan(f.properties["level"])
  }

  /**
   * The polygons `load_polygons` appends for one feature, one per level of its span,
   * all with the same id. As in the source, the arguments are passed positionally in
   * the order id, level, graph name, so the level lands in the `graph` field and the
   * graph name in the `level` field.
   */
  function FeaturePolygons(f: PolyFeature, id: int, graphName: string): (ps: seq<Polygon>)
    requires Shaped(f)
    ensures |ps| == |FeatureLevels(f)| && forall k :: 0 <= k < |ps| ==> ps[k].id == id
  {
    var vs := Swapped(f.rings[0]);
    var span := FeatureLevels(f);
    seq(|span|, i requires 0 <= i < |span| =>
      Polygon(id, span[i], Str(graphName), vs, NorthEast(vs), SouthWest(vs), f.properties))
  }

  /**
   * Each of a feature's polygons carries the feature's id and properties, the ring's
   * vertices swapped to (lat, lon) in ring order with their bounding box, the k-th level
   * of the span in its `graph` field and the graph name in its `level` field.
   */
  lemma FeaturePolygonsShape(f: PolyFeature, id: int, graphName: string, k: nat)
    requires Shaped(f) && k < |FeaturePolygons(f, id, graphName)|
    ensures var p := FeaturePolygons(f, id, graphName)[k];
      p.id == id && p.tags == f.properties
      && p.graph == FeatureLevels(f)[k] && p.level == Str(graphName)
      && |p.vertices| == |f.rings[0]|
      && (forall i :: 0 <= i < |f.rings[0]| ==> p.vertices[i] == (f.rings[0][i][1], f.rings[0][i][0]))
      && (forall v :: v in p.vertices ==> p.sw.0 <= v.0 <= p.ne.0 && p.sw.1 <= v.1 <= p.ne.1)
  {
    BoundingBox(Swapped(f.rings[0]));
  }

  /** The geodesy entry kept beside a polygon: its id, its level, its shape and its tags. */
  function EntryOf(p: Polygon): GeodesyEntry {
    GeodesyEntry(p.id, p.graph, p.vertices, p.tags)
  }

  function Entries(ps: seq<Polygon>): (es: seq<GeodesyEntry>)
    ensures |es| == |ps| && forall i :: 0 <= i < |ps| ==> es[i] == EntryOf(ps[i])
  {
    seq(|ps|, i requires 0 <= i < |ps| => EntryOf(ps[i]))
  }

  lemma EntriesAppend(ps: seq<Polygon>, qs: seq<Polygon>)
    ensures Entries(ps + qs) == Entries(ps) + Entries(qs)
  {
  }

  /** One polygon and one entry per level of the span, all with the same id, shape and tags. */
  method NewPolygons(id: int, levelSpan: seq<Value>, graphName: string, vertices: seq<LatLon>, ne: LatLon, sw: LatLon, tags: Tags)
    returns (added: seq<Polygon>, entries: seq<GeodesyEntry>)
    ensures |added| == |levelSpan| && entries == Entries(added)
    ensures forall j :: 0 <= j < |levelSpan| ==> added[j] == Polygon(id, levelSpan[j], Str(graphName), vertices, ne, sw, tags)
  {
    added, entries := [], [];
    for j := 0 to |levelSpan|
      invariant |added| == j && entries == Entries(added)
      invariant forall k :: 0 <= k < j ==> added[k] == Polygon(id, levelSpan[k], Str(graphName), vertices, ne, sw, tags)
    {
      entries := entries + [GeodesyEntry(id, levelSpan[j], vertices, tags)];
      added := added + [Polygon(id, levelSpan[j], Str(graphName), vertices, ne, sw, tags)];
    }
  }

  /** Every feature has a ring with two coordinates per vertex and a level. */
  predicate AllShaped(features: seq<PolyFeature>) {
    forall j :: 0 <= j < |features| ==> Shaped(features[j])
  }

  /** The polygon list after one feature is loaded: its id is the number of polygons before it. */
  function LoadOne(ps: seq<Polygon>, f: PolyFeature, graphName: string): (r: seq<Polygon>)
    requires Shaped(f)
    ensures |r| > |ps| && r[..|ps|] == ps
    ensures forall k :: |ps| <= k < |r| ==> r[k].id == |ps|
  {
    ps + FeaturePolygons(f, |ps|, graphName)
  }

  /** The polygon list after `features` are loaded, in order, onto `ps`. */
  function LoadAll(ps: seq<Polygon>, features: seq<PolyFeature>, graphName: string): seq<Polygon>
    requires AllShaped(features)
    decreases |features|
  {
    if |features| == 0 then ps
    else LoadOne(LoadAll(ps, features[..|features| - 1], graphName), features[|features| - 1], graphName)
  }

  /** `LoadAll` over one more feature loads that feature onto the result so far. */
  lemma LoadAllSnoc(ps: seq<Polygon>, features: seq<PolyFeature>, i: nat, graphName: string)
    requires i < |features| && AllShaped(features)
    ensures AllShaped(features[..i]) && AllShaped(features[..i + 1])
    ensures LoadAll(ps, features[..i + 1], graphName) == LoadOne(LoadAll(ps, features[..i], graphName), features[i], graphName)
  {
    assert features[..i + 1][..i] == features[..i];
  }

  /** Loading only appends: the polygons already there keep their places. */
  lemma {:induction false} LoadAllKeeps(ps: seq<Polygon>, features: seq<PolyFeature>, graphName: string)
    requires AllShaped(features)
    ensures |LoadAll(ps, features, graphName)| >= |ps| + |features|
    ensures LoadAll(ps, features, graphName)[..|ps|] == ps
    decreases |features|
  {
    if |features| > 0 {
      var init := features[..|features| - 1];
      assert AllShaped(init);
      LoadAllKeeps(ps, init, graphName);
      var prev := LoadAll(ps, init, graphName);
      assert prev[..|ps|] == ps;
      var r := LoadOne(prev, features[|features| - 1], graphName);
      assert r[..|prev|] == prev;
      assert r[..|ps|] == prev[..|ps|];
    }
  }

  /**
   * Every polygon's id is the position of a polygon with the same id at or before it:
   * the first polygon of its feature.
   */
  predicate IdsAtFirstCopy(ps: seq<Polygon>) {
    forall p :: 0 <= p < |ps| ==> (0 <= ps[p].id <= p && ps[ps[p].id].id == ps[p].id)
  }

  /** Ids never decrease along the list. */
  predicate IdsSorted(ps: seq<Polygon>) {
    forall p, q :: 0 <= p <= q < |ps| ==> ps[p].id <= ps[q].id
  }

  /**
   * Loading keeps the numbering of a list loaded from empty: a polygon's id is the
   * position of the first polygon of its feature, and ids never decrease; so all the
   * polygons of one feature share its id and no two features share one.
   */
  lemma {:induction false} LoadAllIds(ps: seq<Polygon>, features: seq<PolyFeature>, graphName: string)
    requires AllShaped(features) && IdsAtFirstCopy(ps) && IdsSorted(ps)
    ensures IdsAtFirstCopy(LoadAll(ps, features, graphName))
    ensures IdsSorted(LoadAll(ps, features, graphName))
    decreases |features|
  {
    if |features| > 0 {
      var init := features[..|features| - 1];
      assert AllShaped(init);
      LoadAllIds(ps, init, graphName);
      var prev := LoadAll(ps, init, graphName);
      AppendFeatureIds(prev, LoadOne(prev, features[|features| - 1], graphName));
    }
  }

  lemma AppendFeatureIds(prev: seq<Polygon>, ps: seq<Polygon>)
    requires IdsAtFirstCopy(prev) && IdsSorted(prev)
    requires |ps| > |prev| && ps[..|prev|] == prev && forall p :: |prev| <= p < |ps| ==> ps[p].id == |prev|
    ensures IdsAtFirstCopy(ps) && IdsSorted(ps)
  {
    assert forall p :: 0 <= p < |prev| ==> ps[p] == prev[p];
    assert ps[|prev|].id == |prev|;
  }

  /** Python's `lookup_polys`: polygon ids to polygons, a later polygon replacing an earlier one. */
  function Lookup(ps: seq<Polygon>): map<int, Polygon>
    decreases |ps|
  {
    if |ps| == 0 then map[] else Lookup(ps[..|ps| - 1])[ps[|ps| - 1].id := ps[|ps| - 1]]
  }

  /** The loop `for poly in polys: lookup[poly.id] = poly`, from an empty dict. */
  method LookupOf(ps: seq<Polygon>) returns (lookup: map<int, Polygon>)
    ensures lookup == Lookup(ps)
  {
    lookup := map[];
    for i := 0 to |ps|
      invariant lookup == Lookup(ps[..i])
    {
      assert ps[..i + 1][..i] == ps[..i];
      lookup := lookup[ps[i].id := ps[i]];
    }
    assert ps[..|ps|] == ps;
  }

  /** Polygon `k` is the last one with its id. */
  predicate LastWithId(ps: seq<Polygon>, k: int) {
    0 <= k < |ps| && forall j :: k < j < |ps| ==> ps[j].id != ps[k].id
  }

  /** The lookup holds exactly the ids of the polygons. */
  lemma {:induction false} LookupKeys(ps: seq<Polygon>, id: int)
    ensures id in Lookup(ps) <==> exists k :: 0 <= k < |ps| && ps[k].id == id
    decreases |ps|
  {
    if |ps| > 0 {
      var init := ps[..|ps| - 1];
      LookupKeys(init, id);
      if exists k :: 0 <= k < |ps| && ps[k].id == id {
        var k :| 0 <= k < |ps| && ps[k].id == id;
        if k < |init| {
          assert init[k] == ps[k];
        }
      }
      if exists k :: 0 <= k < |init| && init[k].id == id {
        var k :| 0 <= k < |init| && init[k].id == id;
        assert ps[k] == init[k];
      }
    }
  }

  /** The lookup maps an id to the last polygon with that id. */
  lemma {:induction false} LookupLastWins(ps: seq<Polygon>, k: nat)
    requires LastWithId(ps, k)
    ensures ps[k].id in Lookup(ps) && Lookup(ps)[ps[k].id] == ps[k]
    decreases |ps|
  {
    var init := ps[..|ps| - 1];
    if k < |ps| - 1 {
      assert LastWithId(init, k) && init[k] == ps[k];
      LookupLastWins(init, k);
    }
  }

  /** Each id has a last polygon. */
  lemma LastOfId(ps: seq<Polygon>, k: nat) returns (m: nat)
    requires k < |ps|
    ensures LastWithId(ps, m) && ps[m].id == ps[k].id
    decreases |ps| - k
  {
    if exists j :: k < j < |ps| && ps[j].id == ps[k].id {
      var j :| k < j < |ps| && ps[j].id == ps[k].id;
      m := LastOfId(ps, j);
    } else {
      m := k;
    }
  }

  /** Every polygon's id is in the lookup. */
  lemma LookupHas(ps: seq<Polygon>, k: nat)
    requires k < |ps|
    ensures ps[k].id in Lookup(ps)
  {
    LookupKeys(ps, ps[k].id);
  }

  /** Entry `e` is on `level` (Python `==`) and its polygon contains `point`. */
  predicate Hit(e: GeodesyEntry, level: Value, point: LatLon, contains: Containment) {
    PyEq(e.level, level) && contains(e.polygon, point)
  }

  /** The position of the first entry on `level` whose polygon contains `point`. */
  function FirstHit(es: seq<GeodesyEntry>, level: Value, point: LatLon, contains: Containment): (r: Option<nat>)
    ensures r.Some? ==> (r.value < |es| && Hit(es[r.value], level, point, contains)
      && forall j :: 0 <= j < r.value ==> !Hit(es[j], level, point, contains))
    ensures r.None? <==> forall j :: 0 <= j < |es| ==> !Hit(es[j], level, point, contains)
    decreases |es|
  {
    if |es| == 0 then None
    else if Hit(es[0], level, point, contains) then Some(0)
    else match FirstHit(es[1..], level, point, contains)
      case None => None
      case Some(k) => Some(k + 1)
  }

  /** An entry that is hit after a run of misses is the first hit. */
  lemma FirstHitAt(es: seq<GeodesyEntry>, level: Value, point: LatLon, contains: Containment, k: nat)
    requires k < |es| && Hit(es[k], level, point, contains)
    requires forall j :: 0 <= j < k ==> !Hit(es[j], level, point, contains)
    ensures FirstHit(es, level, point, contains) == Some(k)
  {
  }

  /**
   * The room `in_poly` finds among `polygons`: the polygon the lookup gives for the first
   * same-level entry containing the point, or `None`.
   */
  function RoomOf(polygons: seq<Polygon>, point: LatLon, level: Value, contains: Containment): Option<Polygon> {
    match FirstHit(Entries(polygons), level, point, contains)
    case None => None
    case Some(k) => LookupHas(polygons, k); Some(Lookup(polygons)[Entries(polygons)[k].id])
  }

  class PolygonParser {
    /** `graph_name`. */
    var graphName: string
    /** `json_polygons["features"]`. */
    var features: seq<PolyFeature>
    /** `polygons`: one entry per feature and level. */
    var polygons: seq<Polygon>
    /** `__geodesy_polygons`: the entry kept beside each polygon, in the same order. */
    var geodesy: seq<GeodesyEntry>

    /** Each geodesy entry belongs to the polygon at its position. */
    predicate Valid()
      reads this
    {
      geodesy == Entries(polygons)
    }

    constructor (graphName: string, features: seq<PolyFeature>)
      ensures Valid()
      ensures this.graphName == graphName && this.features == features && polygons == [] && geodesy == []
    {
      this.graphName := graphName;
      this.features := features;
      polygons := [];
      geodesy := [];
    }

    /**
     * `load_polygons`: every feature's polygons and entries are appended, the id of a
     * feature being the number of polygons present when it is reached.
     */
    method LoadPolygons()
      requires Valid() && AllShaped(features)
      modifies this
      ensures Valid()
      ensures graphName == old(graphName) && features == old(features)
      ensures polygons == LoadAll(old(polygons), features, graphName)
    {
      var i := 0;
      while i < |features|
        invariant 0 <= i <= |features| && graphName == old(graphName) && features == old(features)
        invariant AllShaped(features) && AllShaped(features[..i])
        invariant Valid()
        invariant polygons == LoadAll(old(polygons), features[..i], graphName)
      {
        LoadAllSnoc(old(polygons), features, i, graphName);
        LoadFeature(features[i]);
        i := i + 1;
      }
      assert features[..i] == features;
    }

    /**
     * The body of `load_polygons`' loop for one feature. The polygons and entries are
     * gathered first and appended together; nothing reads the lists in between.
     */
    method LoadFeature(feature: PolyFeature)
      requires Valid() && Shaped(feature)
      modifies this
      ensures Valid()
      ensures graphName == old(graphName) && features == old(features)
      ensures polygons == LoadOne(old(polygons), feature, graphName)
    {
      var id := |polygons|;
      var room := feature.rings[0];
      var vertices := Swapped(room);
      var ne := NorthEast(vertices);
      var sw := SouthWest(vertices);
      var levelSpan := FeatureLevels(feature);
      var added, entries := NewPolygons(id, levelSpan, graphName, vertices, ne, sw, feature.properties);
      ghost var expected := FeaturePolygons(feature, id, graphName);
      assert |added| == |expected|;
      assert forall j :: 0 <= j < |added| ==> added[j] == expected[j];
      EntriesAppend(polygons, added);
      geodesy := geodesy + entries;
      polygons := polygons + added;
    }

    /**
     * What `in_poly` returns: the polygon the lookup gives for the first same-level entry
     * containing the point, or `None`.
     */
    function Containing(point: LatLon, level: Value, contains: Containment): Option<Polygon>
      requires Valid()
      reads this
    {
      RoomOf(polygons, point, level, contains)
    }

    /**
     * A polygon is found exactly when some entry on the level contains the point; it is
     * the last polygon carrying the id of the first such entry.
     */
    lemma ContainingFound(point: LatLon, level: Value, contains: Containment)
      requires Valid()
      ensures Containing(point, level, contains).None? <==>
        forall j :: 0 <= j < |geodesy| ==> !Hit(geodesy[j], level, point, contains)
      ensures Containing(point, level, contains).Some? ==>
        exists k, m :: 0 <= k < |geodesy| && Hit(geodesy[k], level, point, contains)
          && (forall j :: 0 <= j < k ==> !Hit(geodesy[j], level, point, contains))
          && LastWithId(polygons, m) && polygons[m].id == geodesy[k].id
          && Containing(point, level, contains) == Some(polygons[m])
    {
      match FirstHit(geodesy, level, point, contains)
      case None =>
      case Some(k) =>
        var m := LastOfId(polygons, k);
        LookupLastWins(polygons, m);
    }

    /**
     * `in_poly`: the lookup from id to polygon is built afresh, then the entries on the
     * node's level are tried in order.
     */
    method InPoly(point: LatLon, level: Value, contains: Containment) returns (room: Option<Polygon>)
      requires Valid()
      ensures room == Containing(point, level, contains)
    {
      var lookupPolys := LookupOf(polygons);
      var k := 0;
      while k < |geodesy|
        invariant 0 <= k <= |geodesy|
        invariant forall j :: 0 <= j < k ==> !Hit(geodesy[j], level, point, contains)
      {
        var entry := geodesy[k];
        if PyEq(entry.level, level) && contains(entry.polygon, point) {
          FirstHitAt(geodesy, level, point, contains, k);
          LookupHas(polygons, k);
          return Some(lookupPolys[entry.id]);
        }
        k := k + 1;
      }
      return None;
    }

    /** The node as `parse_room` leaves it: `poly_id` set to the containing polygon's id, if any. */
    function Located(node: PathNode, contains: Containment): PathNode
      requires Valid()
      reads this
    {
      match Containing((node.lat, node.lon), node.level, contains)
      case Some(room) => node.(polyId := room.id)
      case None => node
    }

    /**
     * `parse_room` changes nothing but `poly_id`, and changes it to the polygon's id
     * exactly when a polygon on the node's level contains the node.
     */
    lemma LocatedChangesPolyId(node: PathNode, contains: Containment)
      requires Valid()
      ensures Located(node, contains).(polyId := node.polyId) == node
      ensures Containing((node.lat, node.lon), node.level, contains).Some? ==>
        Located(node, contains).polyId == Containing((node.lat, node.lon), node.level, contains).value.id
      ensures (forall j :: 0 <= j < |geodesy| ==> !Hit(geodesy[j], node.level, (node.lat, node.lon), contains)) ==>
        Located(node, contains) == node
    {
      ContainingFound((node.lat, node.lon), node.level, contains);
    }

    /** `parse_room`: the node's position as a shapely `Point(lat, lon)` and its level are looked up. */
    method ParseRoom(node: PathNode, contains: Containment) returns (located: PathNode)
      requires Valid()
      ensures located == Located(node, contains)
    {
      var room := InPoly((node.lat, node.lon), node.level, contains);
      located := node;
      if room.Some? {
        located := located.(polyId := room.value.id);
      }
    }

    /** `parse_rooms`: one located node per node, in the same order. */
    method ParseRooms(nodes: seq<PathNode>, contains: Containment) returns (located: seq<PathNode>)
      requires Valid()
      ensures |located| == |nodes|
      ensures forall i :: 0 <= i < |nodes| ==> located[i] == Located(nodes[i], contains)
    {
      located := [];
      for i := 0 to |nodes|
        invariant |located| == i
        invariant forall j :: 0 <= j < i ==> located[j] == Located(nodes[j], contains)
      {
        var node := ParseRoom(nodes[i], contains);
        located := located + [node];
      }
    }
  }
}
