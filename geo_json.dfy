/**
 * The mobile client's map builder (app/lib/geoJson.js): survey polygons, nodes, walls,
 * points of interest and edges become one feature collection, each feature carrying
 * its level as a list of integers.
 */
module GeoJson {
  import opened Text
  import opened Features

  /** The integers `start, start + 1, ..., end` (empty when `start > end`). */
  function Span(start: int, end: int): (r: seq<int>)
    ensures |r| == if start <= end then end - start + 1 else 0
    ensures forall i :: 0 <= i < |r| ==> r[i] == start + i
    decreases end - start
  {
    if start > end then [] else [start] + Span(start + 1, end)
  }

  function AsNums(xs: seq<int>): (r: seq<ParsedInt>)
    ensures |r| == |xs| && forall i :: 0 <= i < |xs| ==> r[i] == Num(xs[i])
  {
    seq(|xs|, i requires 0 <= i < |xs| => Num(xs[i]))
  }

  /** `tokens.map(n => parseInt(n, 10))`. */
  function ParseTokens(tokens: seq<string>): (r: seq<ParsedInt>)
    ensures |r| == |tokens| && forall i :: 0 <= i < |tokens| ==> r[i] == JsParseInt(tokens[i])
  {
    seq(|tokens|, i requires 0 <= i < |tokens| => JsParseInt(tokens[i]))
  }

  /** The inclusive range between two parsed ends; empty when either is `NaN`. */
  function RangeLevels(start: ParsedInt, end: ParsedInt): seq<ParsedInt> {
    if start.Num? && end.Num? then AsNums(Span(start.value, end.value)) else []
  }

  /**
   * `levelToArray`: the ';'-separated tokens of a level string, each read by
   * `parseInt`; exactly two tokens stand for the inclusive range between them, which is
   * empty when either end is `NaN` (no comparison with `NaN` holds).
   */
  function LevelToArray(level: string): seq<ParsedInt> {
    var parts := ParseTokens(Split(level, ";"));
    if |parts| == 2 then RangeLevels(parts[0], parts[1]) else parts
  }

  /** The loop `for (let i = start; i <= end; i++) levels.push(i)`. */
  method PushRange(start: ParsedInt, end: ParsedInt) returns (levels: seq<ParsedInt>)
    ensures levels == RangeLevels(start, end)
  {
    levels := [];
    if start.Num? && end.Num? {
      var i := start.value;
      while i <= end.value
        invariant i == start.value || i <= end.value + 1
        invariant levels == AsNums(Span(start.value, i - 1))
        decreases end.value - i
      {
        assert Span(start.value, i) == Span(start.value, i - 1) + [i];
        levels := levels + [Num(i)];
        i := i + 1;
      }
    }
  }

  /** `levelToArray`, with its range loop. */
  method LevelsOf(level: string) returns (levels: seq<ParsedInt>)
    ensures levels == LevelToArray(level)
  {
    var parts := ParseTokens(Split(level, ";"));
    levels := parts;
    if |parts| == 2 {
      levels := PushRange(parts[0], parts[1]);
    }
  }

  /** A single integer level reads back as the one-element list of that level. */
  lemma LevelSingle(n: int)
    ensures LevelToArray(ShowInt(n)) == [Num(n)]
  {
    ShowIntChars(n, ';');
    SplitFree(ShowInt(n), ';');
    JsParseIntShow(n);
  }

  /** "a;b" stands for every level from a to b inclusive, in ascending order. */
  lemma LevelRange(a: int, b: int)
    ensures var r := LevelToArray(ShowInt(a) + ";" + ShowInt(b));
      |r| == (if a <= b then b - a + 1 else 0) && forall i :: 0 <= i < |r| ==> r[i] == Num(a + i)
  {
    var x, y := ShowInt(a), ShowInt(b);
    ShowIntChars(a, ';');
    ShowIntChars(b, ';');
    SplitTwo(x, y, ';');
    assert Split(x + ";" + y, ";") == [x, y];
    JsParseIntShow(a);
    JsParseIntShow(b);
    var parts := ParseTokens([x, y]);
    assert parts[0] == Num(a) && parts[1] == Num(b);
    assert LevelToArray(x + ";" + y) == RangeLevels(Num(a), Num(b));
    RangeLevelsSpan(a, b);
  }

  lemma RangeLevelsSpan(a: int, b: int)
    ensures var r := RangeLevels(Num(a), Num(b));
      |r| == (if a <= b then b - a + 1 else 0) && forall i :: 0 <= i < |r| ==> r[i] == Num(a + i)
  {
  }

  /** Two tokens of which one is not a number give no level at all. */
  lemma LevelRangeNaN(x: string, y: string)
    requires forall i :: 0 <= i < |x| ==> x[i] != ';'
    requires forall i :: 0 <= i < |y| ==> y[i] != ';'
    requires JsParseInt(x) == NaN || JsParseInt(y) == NaN
    ensures LevelToArray(x + ";" + y) == []
  {
    SplitTwo(x, y, ';');
  }

  /** Every vertex with its two axes exchanged. */
  function SwapAll(vs: seq<Coord>): (r: seq<Coord>)
    ensures |r| == |vs| && forall i :: 0 <= i < |vs| ==> r[i] == Swap(vs[i])
  {
    seq(|vs|, i requires 0 <= i < |vs| => Swap(vs[i]))
  }

  /** Swapping the axes twice gives back the surveyed vertices. */
  lemma SwapAllTwice(vs: seq<Coord>)
    ensures SwapAll(SwapAll(vs)) == vs
  {
  }

  /** The feature of one polygon (the callback of `polyFeatures`). */
  function PolyFeature(p: PolygonRecord): Feature {
    Feature(PolygonGeometry([SwapAll(p.vertices)]),
      SpreadTags(p.tags)["queryObject" := PolygonObject(p)]["level" := Levels(LevelToArray(p.level))])
  }

  /** `polyFeatures`. */
  function PolyFeatures(ps: seq<PolygonRecord>): (fs: seq<Feature>)
    ensures |fs| == |ps| && forall i :: 0 <= i < |ps| ==> fs[i] == PolyFeature(ps[i])
  {
    seq(|ps|, i requires 0 <= i < |ps| => PolyFeature(ps[i]))
  }

  /** The feature of one node (the callback of `nodeFeatures`). */
  function NodeFeature(n: NodeRecord): Feature {
    Feature(PointGeometry([Coord(n.lon, n.lat)]),
      SpreadTags(n.tags)["queryObject" := NodeObject(n)]["level" := Levels(LevelToArray(n.level))])
  }

  /** `nodeFeatures`. */
  function NodeFeatures(ns: seq<NodeRecord>): (fs: seq<Feature>)
    ensures |fs| == |ns| && forall i :: 0 <= i < |ns| ==> fs[i] == NodeFeature(ns[i])
  {
    seq(|ns|, i requires 0 <= i < |ns| => NodeFeature(ns[i]))
  }

  /**
   * A polygon feature gives back its polygon: one ring holding the vertices with their
   * axes swapped, the polygon itself as `queryObject`, its parsed level, and every
   * other tag unchanged.
   */
  lemma PolyFeatureRecovers(p: PolygonRecord)
    ensures var f := PolyFeature(p);
      && f.geometry.PolygonGeometry? && |f.geometry.rings| == 1
      && SwapAll(f.geometry.rings[0]) == p.vertices
      && f.properties["queryObject"] == PolygonObject(p)
      && f.properties["level"] == Levels(LevelToArray(p.level))
      && f.properties.Keys == p.tags.Keys + {"queryObject", "level"}
      && forall k :: k in p.tags && k != "queryObject" && k != "level" ==> f.properties[k] == Tag(p.tags[k])
  {
    SwapAllTwice(p.vertices);
  }

  /** A node feature is the point `[lon, lat]` with the node as `queryObject`. */
  lemma NodeFeatureRecovers(n: NodeRecord)
    ensures var f := NodeFeature(n);
      && f.geometry == PointGeometry([Coord(n.lon, n.lat)])
      && f.properties["queryObject"] == NodeObject(n)
      && f.properties["level"] == Levels(LevelToArray(n.level))
      && f.properties.Keys == n.tags.Keys + {"queryObject", "level"}
      && forall k :: k in n.tags && k != "queryObject" && k != "level" ==> f.properties[k] == Tag(n.tags[k])
  {
  }

  /** `nodeLookup[n.id] = n` for every node in turn. */
  function LookupOf(nodes: seq<NodeRecord>): map<int, NodeRecord>
    decreases |nodes|
  {
    if |nodes| == 0 then map[]
    else LookupOf(nodes[..|nodes| - 1])[nodes[|nodes| - 1].id := nodes[|nodes| - 1]]
  }

  /** `nodes[i]` is the last node with id `k`. */
  predicate LastWithId(nodes: seq<NodeRecord>, k: int, i: int) {
    0 <= i < |nodes| && nodes[i].id == k && forall j :: i < j < |nodes| ==> nodes[j].id != k
  }

  /** Every id of the list is a key of the lookup table, and its value is the last node with that id. */
  lemma {:induction false} LookupLastWins(nodes: seq<NodeRecord>, k: int)
    ensures k in LookupOf(nodes) <==> exists i :: 0 <= i < |nodes| && nodes[i].id == k
    ensures k in LookupOf(nodes) ==> exists i :: LastWithId(nodes, k, i) && nodes[i] == LookupOf(nodes)[k]
    decreases |nodes|
  {
    if |nodes| > 0 {
      var init := nodes[..|nodes| - 1];
      var last := nodes[|nodes| - 1];
      assert LookupOf(nodes) == LookupOf(init)[last.id := last];
      if last.id == k {
        assert LastWithId(nodes, k, |nodes| - 1);
      } else {
        LookupLastWins(init, k);
        assert forall i :: 0 <= i < |init| ==> init[i] == nodes[i];
        if exists i :: 0 <= i < |nodes| && nodes[i].id == k {
          var i :| 0 <= i < |nodes| && nodes[i].id == k;
          assert i < |init| && init[i].id == k;
        }
        if k in LookupOf(init) {
          var i :| LastWithId(init, k, i) && init[i] == LookupOf(init)[k];
          assert LastWithId(nodes, k, i);
        }
      }
    }
  }

  /** The loop that fills `nodeLookup`. */
  method BuildLookup(nodes: seq<NodeRecord>) returns (lookup: map<int, NodeRecord>)
    ensures lookup == LookupOf(nodes)
  {
    lookup := map[];
    var i := 0;
    while i < |nodes|
      invariant 0 <= i <= |nodes|
      invariant lookup == LookupOf(nodes[..i])
    {
      assert nodes[..i + 1][..i] == nodes[..i];
      lookup := lookup[nodes[i].id := nodes[i]];
      i := i + 1;
    }
    assert nodes[..|nodes|] == nodes;
  }

  /** The filter of `buildLineString`: both ends of the edge are in the table. */
  predicate Resolvable(lookup: map<int, NodeRecord>, e: EdgeRecord) {
    e.a in lookup && e.b in lookup
  }

  /** The edges that pass the filter, in their original order. */
  function Resolved(lookup: map<int, NodeRecord>, edges: seq<EdgeRecord>): (r: seq<EdgeRecord>)
    ensures |r| <= |edges|
    ensures forall e :: e in r <==> e in edges && Resolvable(lookup, e)
    ensures (forall i :: 0 <= i < |edges| ==> Resolvable(lookup, edges[i])) ==> r == edges
  {
    if |edges| == 0 then []
    else (if Resolvable(lookup, edges[0]) then [edges[0]] else []) + Resolved(lookup, edges[1..])
  }

  /** The line feature of one resolved edge: from its first node to its second. */
  function LineOf(lookup: map<int, NodeRecord>, e: EdgeRecord): Feature
    requires Resolvable(lookup, e)
  {
    var n1 := lookup[e.a];
    var n2 := lookup[e.b];
    Feature(LineStringGeometry([Coord(n1.lon, n1.lat), Coord(n2.lon, n2.lat)]),
      SpreadTags(n1.tags)["edge" := EdgeIds(e)]["level" := Levels(LevelToArray(n1.level))])
  }

  lemma LineOfShape(lookup: map<int, NodeRecord>, e: EdgeRecord)
    requires Resolvable(lookup, e)
    ensures var f := LineOf(lookup, e);
      var n1, n2 := lookup[e.a], lookup[e.b];
      && f.geometry == LineStringGeometry([Coord(n1.lon, n1.lat), Coord(n2.lon, n2.lat)])
      && f.properties["edge"] == EdgeIds(e) && f.properties["level"] == Levels(LevelToArray(n1.level))
  {
  }

  /** `buildLineString(nodes, edges)`. */
  function LineFeatures(nodes: seq<NodeRecord>, edges: seq<EdgeRecord>): (fs: seq<Feature>)
    ensures |fs| <= |edges|
  {
    var lookup := LookupOf(nodes);
    Lines(lookup, Resolved(lookup, edges))
  }

  /** The line of each resolvable edge, in order. */
  function Lines(lookup: map<int, NodeRecord>, kept: seq<EdgeRecord>): (fs: seq<Feature>)
    requires forall e :: e in kept ==> Resolvable(lookup, e)
    ensures |fs| == |kept|
  {
    seq(|kept|, i requires 0 <= i < |kept| => LineOf(lookup, kept[i]))
  }

  lemma LinesAppend(lookup: map<int, NodeRecord>, ka: seq<EdgeRecord>, kb: seq<EdgeRecord>)
    requires forall e :: e in ka ==> Resolvable(lookup, e)
    requires forall e :: e in kb ==> Resolvable(lookup, e)
    ensures Lines(lookup, ka + kb) == Lines(lookup, ka) + Lines(lookup, kb)
  {
    var all, la, lb := Lines(lookup, ka + kb), Lines(lookup, ka), Lines(lookup, kb);
    forall i | 0 <= i < |all|
      ensures all[i] == (la + lb)[i]
    {
      if i < |la| {
        assert (ka + kb)[i] == ka[i];
      } else {
        assert (ka + kb)[i] == kb[i - |la|];
      }
    }
  }

  /**
   * Every line feature joins, as `[lon, lat]` points, two listed nodes that a listed
   * edge connects, and carries that edge; conversely every edge whose two ends are
   * listed nodes gives a line feature.
   */
  lemma LineFeaturesSound(nodes: seq<NodeRecord>, edges: seq<EdgeRecord>, f: Feature)
    requires f in LineFeatures(nodes, edges)
    ensures exists e, n1, n2 ::
      && e in edges && n1 in nodes && n2 in nodes && n1.id == e.a && n2.id == e.b
      && f.geometry == LineStringGeometry([Coord(n1.lon, n1.lat), Coord(n2.lon, n2.lat)])
      && f.properties["edge"] == EdgeIds(e) && f.properties["level"] == Levels(LevelToArray(n1.level))
  {
    var lookup := LookupOf(nodes);
    var kept := Resolved(lookup, edges);
    var i :| 0 <= i < |kept| && f == LineOf(lookup, kept[i]);
    var e := kept[i];
    assert e in kept;
    LookupLastWins(nodes, e.a);
    LookupLastWins(nodes, e.b);
    var ia :| LastWithId(nodes, e.a, ia) && nodes[ia] == lookup[e.a];
    var ib :| LastWithId(nodes, e.b, ib) && nodes[ib] == lookup[e.b];
    var n1, n2 := nodes[ia], nodes[ib];
    assert n1 in nodes && n2 in nodes;
    LineOfShape(lookup, e);
  }

  lemma LineFeaturesComplete(nodes: seq<NodeRecord>, edges: seq<EdgeRecord>, e: EdgeRecord)
    requires e in edges
    requires exists i :: 0 <= i < |nodes| && nodes[i].id == e.a
    requires exists i :: 0 <= i < |nodes| && nodes[i].id == e.b
    ensures exists f :: f in LineFeatures(nodes, edges) && f.properties["edge"] == EdgeIds(e)
  {
    var lookup := LookupOf(nodes);
    LookupLastWins(nodes, e.a);
    LookupLastWins(nodes, e.b);
    var kept := Resolved(lookup, edges);
    assert e in kept;
    var i :| 0 <= i < |kept| && kept[i] == e;
    assert LineFeatures(nodes, edges)[i] == LineOf(lookup, e);
  }

  /** The filter keeps the order of the edges: filtering a concatenation filters each part. */
  lemma {:induction false} ResolvedAppend(lookup: map<int, NodeRecord>, a: seq<EdgeRecord>, b: seq<EdgeRecord>)
    ensures Resolved(lookup, a + b) == Resolved(lookup, a) + Resolved(lookup, b)
    decreases |a|
  {
    if |a| > 0 {
      assert (a + b)[0] == a[0] && (a + b)[1..] == a[1..] + b;
      ResolvedAppend(lookup, a[1..], b);
    } else {
      assert a + b == b;
    }
  }

  /** Lines come in edge order: the lines of a concatenation of edge lists are those of each part. */
  lemma LineFeaturesAppend(nodes: seq<NodeRecord>, a: seq<EdgeRecord>, b: seq<EdgeRecord>)
    ensures LineFeatures(nodes, a + b) == LineFeatures(nodes, a) + LineFeatures(nodes, b)
  {
    var lookup := LookupOf(nodes);
    ResolvedAppend(lookup, a, b);
    LinesAppend(lookup, Resolved(lookup, a), Resolved(lookup, b));
  }

  /**
   * One edge gives one line, from the last listed node with its first id to the last
   * listed node with its second, exactly when both ids are listed, and nothing otherwise.
   */
  lemma LineFeaturesOne(nodes: seq<NodeRecord>, e: EdgeRecord)
    ensures var listed := (exists i :: 0 <= i < |nodes| && nodes[i].id == e.a)
      && (exists i :: 0 <= i < |nodes| && nodes[i].id == e.b);
      |LineFeatures(nodes, [e])| == (if listed then 1 else 0)
    ensures |LineFeatures(nodes, [e])| == 1 ==>
      exists ia, ib :: LastWithId(nodes, e.a, ia) && LastWithId(nodes, e.b, ib)
        && LineFeatures(nodes, [e])[0].geometry
          == LineStringGeometry([Coord(nodes[ia].lon, nodes[ia].lat), Coord(nodes[ib].lon, nodes[ib].lat)])
        && LineFeatures(nodes, [e])[0].properties["edge"] == EdgeIds(e)
  {
    var lookup := LookupOf(nodes);
    LookupLastWins(nodes, e.a);
    LookupLastWins(nodes, e.b);
    assert [e][1..] == [];
    if Resolvable(lookup, e) {
      assert Resolved(lookup, [e]) == [e];
      LineOfShape(lookup, e);
    }
  }

  /** `onLevel(level)(feature)`: the level list of the feature includes the level. */
  predicate OnLevel(level: int, f: Feature)
    requires "level" in f.properties && f.properties["level"].Levels?
  {
    Num(level) in f.properties["level"].levels
  }

  /** A feature surveyed on "a;b" is on exactly the levels a to b. */
  lemma OnLevelRange(level: int, f: Feature, a: int, b: int)
    requires "level" in f.properties
    requires f.properties["level"] == Levels(LevelToArray(ShowInt(a) + ";" + ShowInt(b)))
    ensures OnLevel(level, f) <==> a <= level <= b
  {
    LevelRange(a, b);
    var r := LevelToArray(ShowInt(a) + ";" + ShowInt(b));
    if a <= level <= b {
      assert r[level - a] == Num(level);
    }
  }

  /** A feature surveyed on one level is on that level only. */
  lemma OnLevelSingle(level: int, f: Feature, n: int)
    requires "level" in f.properties && f.properties["level"] == Levels(LevelToArray(ShowInt(n)))
    ensures OnLevel(level, f) <==> level == n
  {
    LevelSingle(n);
  }

  /** `buildGeoJson`: polygons, wall lines, path lines, path nodes, then points of interest. */
  function BuildGeoJson(polygons: seq<PolygonRecord>, nodes: seq<NodeRecord>, walls: seq<NodeRecord>,
                        pois: seq<NodeRecord>, edges: seq<EdgeRecord>): FeatureCollection
  {
    FeatureCollection("Map", Crs84,
      PolyFeatures(polygons) + LineFeatures(walls, edges) + LineFeatures(nodes, edges)
      + NodeFeatures(nodes) + NodeFeatures(pois))
  }

  /**
   * The collection lists one polygon feature per polygon, then line features, then one
   * point feature per path node and per point of interest, the points in input order.
   */
  lemma BuildGeoJsonLayout(polygons: seq<PolygonRecord>, nodes: seq<NodeRecord>, walls: seq<NodeRecord>,
                           pois: seq<NodeRecord>, edges: seq<EdgeRecord>)
    ensures var fs := BuildGeoJson(polygons, nodes, walls, pois, edges).features;
      var lines := |LineFeatures(walls, edges)| + |LineFeatures(nodes, edges)|;
      && |fs| == |polygons| + lines + |nodes| + |pois|
      && (forall i :: 0 <= i < |fs| ==> (fs[i].geometry.PolygonGeometry? <==> i < |polygons|))
      && (forall i :: 0 <= i < |fs| ==>
            (fs[i].geometry.LineStringGeometry? <==> |polygons| <= i < |polygons| + lines))
      && (forall i :: 0 <= i < |nodes| ==> fs[|polygons| + lines + i].properties["queryObject"] == NodeObject(nodes[i]))
      && (forall i :: 0 <= i < |pois| ==>
            fs[|polygons| + lines + |nodes| + i].properties["queryObject"] == NodeObject(pois[i]))
  {
    var pf := PolyFeatures(polygons);
    var lw := LineFeatures(walls, edges);
    var ln := LineFeatures(nodes, edges);
    var nf := NodeFeatures(nodes);
    var qf := NodeFeatures(pois);
    assert BuildGeoJson(polygons, nodes, walls, pois, edges).features == pf + lw + ln + nf + qf;
    PolyFeaturesArePolygons(polygons);
    LineFeaturesAreLines(walls, edges);
    LineFeaturesAreLines(nodes, edges);
    NodeFeaturesArePoints(nodes);
    NodeFeaturesArePoints(pois);
    ConcatLayout(pf, lw, ln, nf, qf);
  }

  lemma PolyFeaturesArePolygons(ps: seq<PolygonRecord>)
    ensures forall i :: 0 <= i < |ps| ==> PolyFeatures(ps)[i].geometry.PolygonGeometry?
  {
  }

  lemma LineFeaturesAreLines(nodes: seq<NodeRecord>, edges: seq<EdgeRecord>)
    ensures forall f :: f in LineFeatures(nodes, edges) ==> f.geometry.LineStringGeometry?
  {
  }

  lemma NodeFeaturesArePoints(ns: seq<NodeRecord>)
    ensures forall i :: 0 <= i < |ns| ==>
      NodeFeatures(ns)[i].geometry.PointGeometry? && NodeFeatures(ns)[i].properties["queryObject"] == NodeObject(ns[i])
  {
  }

  /** Polygons, then lines, then two runs of points: where each kind sits in the concatenation. */
  lemma ConcatLayout(pf: seq<Feature>, lw: seq<Feature>, ln: seq<Feature>, nf: seq<Feature>, qf: seq<Feature>)
    requires forall i :: 0 <= i < |pf| ==> pf[i].geometry.PolygonGeometry?
    requires forall f :: f in lw ==> f.geometry.LineStringGeometry?
    requires forall f :: f in ln ==> f.geometry.LineStringGeometry?
    requires forall i :: 0 <= i < |nf| ==> nf[i].geometry.PointGeometry?
    requires forall i :: 0 <= i < |qf| ==> qf[i].geometry.PointGeometry?
    ensures var fs := pf + lw + ln + nf + qf;
      && (forall i :: 0 <= i < |fs| ==> (fs[i].geometry.PolygonGeometry? <==> i < |pf|))
      && (forall i :: 0 <= i < |fs| ==> (fs[i].geometry.LineStringGeometry? <==> |pf| <= i < |pf| + |lw| + |ln|))
      && (forall i :: 0 <= i < |nf| ==> fs[|pf| + |lw| + |ln| + i] == nf[i])
      && (forall i :: 0 <= i < |qf| ==> fs[|pf| + |lw| + |ln| + |nf| + i] == qf[i])
  {
    var fs := pf + lw + ln + nf + qf;
    forall i | 0 <= i < |fs|
      ensures fs[i].geometry.PolygonGeometry? <==> i < |pf|
      ensures fs[i].geometry.LineStringGeometry? <==> |pf| <= i < |pf| + |lw| + |ln|
    {
      if i < |pf| {
        assert fs[i] == pf[i];
      } else if i < |pf| + |lw| {
        assert fs[i] == lw[i - |pf|];
        assert lw[i - |pf|] in lw;
      } else if i < |pf| + |lw| + |ln| {
        assert fs[i] == ln[i - |pf| - |lw|];
        assert ln[i - |pf| - |lw|] in ln;
      } else if i < |pf| + |lw| + |ln| + |nf| {
        assert fs[i] == nf[i - |pf| - |lw| - |ln|];
      } else {
        assert fs[i] == qf[i - |pf| - |lw| - |ln| - |nf|];
      }
    }
  }
}
