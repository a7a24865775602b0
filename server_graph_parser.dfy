/**
 * The server's map parser (server/src/parser/graph_parser.py): the points of the
 * line-string layer become path nodes, shared between lines where a point and level
 * repeat, consecutive points of a line become edges, and every point of interest is
 * tied to the nearest path node of the room that contains it. Shapely's distance is
 * the parameter `distance`, its containment test the parameter `contains`.
 */
module ServerGraphParser {
  import opened Wrappers
  import opened Seqs
  import opened MapTypes
  import opened PolygonParser

  /** A line-string feature: its `geometry` (`None` for QGIS's empty features) and its properties. */
  datatype LineFeature = LineFeature(geometry: Option<seq<seq<real>>>, properties: Tags)

  /** A point-of-interest feature: its `[lon, lat]` coordinates and its properties. */
  datatype PoiFeature = PoiFeature(coordinates: seq<real>, properties: Tags)

  /** A `__node_hashes` value: `{"level": ..., "id": ...}`. */
  datatype HashEntry = HashEntry(level: Value, id: int)

  /** The parser's path graph: `nodes`, `edges` and `__node_hashes`, keyed by `(lon, lat)`. */
  datatype Ways = Ways(nodes: seq<PathNode>, edges: seq<(int, int)>, hashes: map<(real, real), HashEntry>)

  /** What `parse_node_feature` reads without raising: two coordinates per point and, if there is a point, a level. */
  predicate PointsReadable(coords: seq<seq<real>>, properties: Tags) {
    (forall j :: 0 <= j < |coords| ==> |coords[j]| >= 2) && (|coords| > 0 ==> "level" in properties)
  }

  predicate LineReadable(f: LineFeature) {
    f.geometry.Some? ==> PointsReadable(f.geometry.value, f.properties)
  }

  predicate LinesReadable(fs: seq<LineFeature>) {
    forall j :: 0 <= j < |fs| ==> LineReadable(fs[j])
  }

  /** Node `n` stands at the point whose key is `(lon, lat)`. */
  predicate At(n: PathNode, key: (real, real)) {
    n.lat == key.1 && n.lon == key.0
  }

  /**
   * The graph is consistent: every node's id is its position, every recorded point
   * names a node standing there with the recorded level, and every edge joins two nodes.
   */
  predicate WaysValid(w: Ways) {
    (forall i :: 0 <= i < |w.nodes| ==> w.nodes[i].id == i)
    && (forall key :: key in w.hashes ==>
          0 <= w.hashes[key].id < |w.nodes| && At(w.nodes[w.hashes[key].id], key)
          && w.nodes[w.hashes[key].id].level == w.hashes[key].level)
    && (forall k :: 0 <= k < |w.edges| ==> 0 <= w.edges[k].0 < |w.nodes| && 0 <= w.edges[k].1 < |w.nodes|)
  }

  /** The point `key` at `level` is already a node: it is recorded with an equal level. */
  predicate Reused(w: Ways, key: (real, real), level: Value) {
    key in w.hashes && PyEq(w.hashes[key].level, level)
  }

  /**
   * One iteration of `parse_node_feature`'s loop: the point's node (recorded or new) and
   * the edge from the previous point's node, if there is one.
   */
  function AddPoint(w: Ways, key: (real, real), properties: Tags, graphName: string, prevId: int): (Ways, int)
    requires "level" in properties
  {
    var level := properties["level"];
    var id := if Reused(w, key, level) then w.hashes[key].id else |w.nodes|;
    var w1 :=
      if Reused(w, key, level) then w
      else w.(nodes := w.nodes + [PathNode(id, graphName, level, key.1, key.0, -1, properties)],
              hashes := w.hashes[key := HashEntry(level, id)]);
    (if prevId != -1 then w1.(edges := w1.edges + [(prevId, id)]) else w1, id)
  }

  /**
   * A point adds a node exactly when it is not recorded at an equal level; the nodes
   * and edges already there are kept, and an edge is added exactly when there is a
   * previous node.
   */
  lemma AddPointShape(w: Ways, key: (real, real), properties: Tags, graphName: string, prevId: int)
    requires "level" in properties
    ensures var w', id := AddPoint(w, key, properties, graphName, prevId).0, AddPoint(w, key, properties, graphName, prevId).1;
      w'.nodes[..|w.nodes|] == w.nodes && w'.edges[..|w.edges|] == w.edges
      && (|w'.nodes| == |w.nodes| <==> Reused(w, key, properties["level"]))
      && (|w'.nodes| == |w.nodes| + 1 <==> !Reused(w, key, properties["level"]))
      && (!Reused(w, key, properties["level"]) ==>
            id == |w.nodes| && w'.nodes[id] == PathNode(id, graphName, properties["level"], key.1, key.0, -1, properties))
      && |w'.edges| == |w.edges| + (if prevId == -1 then 0 else 1)
      && (prevId != -1 ==> w'.edges[|w.edges|] == (prevId, id))
  {
    var w' := AddPoint(w, key, properties, graphName, prevId).0;
    if !Reused(w, key, properties["level"]) {
      assert w'.nodes[..|w.nodes|] == w.nodes;
    }
  }

  /** The graph stays consistent, and the point's node stands at the point with an equal level. */
  lemma AddPointValid(w: Ways, key: (real, real), properties: Tags, graphName: string, prevId: int)
    requires WaysValid(w) && "level" in properties && (prevId == -1 || 0 <= prevId < |w.nodes|)
    ensures var w', id := AddPoint(w, key, properties, graphName, prevId).0, AddPoint(w, key, properties, graphName, prevId).1;
      WaysValid(w') && 0 <= id < |w'.nodes| && At(w'.nodes[id], key) && PyEq(w'.nodes[id].level, properties["level"])
  {
    var level := properties["level"];
    var w', id := AddPoint(w, key, properties, graphName, prevId).0, AddPoint(w, key, properties, graphName, prevId).1;
    if Reused(w, key, level) {
      assert w'.nodes == w.nodes;
      assert PyEq(w.nodes[id].level, level);
    } else {
      PyEqReflexive(level);
      var n := PathNode(id, graphName, level, key.1, key.0, -1, properties);
      assert w'.nodes == w.nodes + [n];
      forall k | k in w'.hashes
        ensures 0 <= w'.hashes[k].id < |w'.nodes| && At(w'.nodes[w'.hashes[k].id], k)
          && w'.nodes[w'.hashes[k].id].level == w'.hashes[k].level
      {
        if k != key {
          assert w'.nodes[w.hashes[k].id] == w.nodes[w.hashes[k].id];
        }
      }
    }
  }

  /** Both of the above, for a consistent graph. */
  lemma AddPointSound(w: Ways, key: (real, real), properties: Tags, graphName: string, prevId: int)
    requires WaysValid(w) && "level" in properties && (prevId == -1 || 0 <= prevId < |w.nodes|)
    ensures var w', id := AddPoint(w, key, properties, graphName, prevId).0, AddPoint(w, key, properties, graphName, prevId).1;
      WaysValid(w') && 0 <= id < |w'.nodes| && At(w'.nodes[id], key) && PyEq(w'.nodes[id].level, properties["level"])
      && w'.nodes[..|w.nodes|] == w.nodes && w'.edges[..|w.edges|] == w.edges
      && (|w'.nodes| == |w.nodes| <==> Reused(w, key, properties["level"]))
      && (|w'.nodes| == |w.nodes| + 1 <==> !Reused(w, key, properties["level"]))
      && (!Reused(w, key, properties["level"]) ==>
            w'.nodes[id] == PathNode(id, graphName, properties["level"], key.1, key.0, -1, properties))
      && |w'.edges| == |w.edges| + (if prevId == -1 then 0 else 1)
      && (prevId != -1 ==> w'.edges[|w.edges|] == (prevId, id))
  {
    AddPointShape(w, key, properties, graphName, prevId);
    AddPointValid(w, key, properties, graphName, prevId);
  }

  /** The rest of a line after the node `prevId`: each point in turn. */
  function AddPoints(w: Ways, coords: seq<seq<real>>, properties: Tags, graphName: string, prevId: int): Ways
    requires PointsReadable(coords, properties)
    decreases |coords|
  {
    if |coords| == 0 then w
    else
      var step := AddPoint(w, (coords[0][0], coords[0][1]), properties, graphName, prevId);
      AddPoints(step.0, coords[1..], properties, graphName, step.1)
  }

  /** `parse_node_feature`: a feature without geometry changes nothing. */
  function AddFeature(w: Ways, f: LineFeature, graphName: string): Ways
    requires LineReadable(f)
  {
    if f.geometry.None? then w else AddPoints(w, f.geometry.value, f.properties, graphName, -1)
  }

  /** `parse_nodes`: the features in order. */
  function AddFeatures(w: Ways, fs: seq<LineFeature>, graphName: string): Ways
    requires LinesReadable(fs)
    decreases |fs|
  {
    if |fs| == 0 then w
    else AddFeature(AddFeatures(w, fs[..|fs| - 1], graphName), fs[|fs| - 1], graphName)
  }

  /** The key of a point, `(point[0], point[1])`. */
  function KeyOf(p: seq<real>): (real, real)
    requires |p| >= 2
  {
    (p[0], p[1])
  }

  /** `w'` extends `w`: its nodes and edges begin with those of `w`. */
  predicate Grows(w: Ways, w': Ways) {
    |w'.nodes| >= |w.nodes| && |w'.edges| >= |w.edges|
    && w'.nodes[..|w.nodes|] == w.nodes && w'.edges[..|w.edges|] == w.edges
  }

  lemma GrowsTrans(w0: Ways, w1: Ways, w2: Ways)
    requires Grows(w0, w1) && Grows(w1, w2)
    ensures Grows(w0, w2)
  {
    assert w2.nodes[..|w0.nodes|] == w2.nodes[..|w1.nodes|][..|w0.nodes|];
    assert w2.edges[..|w0.edges|] == w2.edges[..|w1.edges|][..|w0.edges|];
  }

  /** A point's step keeps the graph consistent and only appends to it. */
  lemma AddPointGrows(w: Ways, key: (real, real), properties: Tags, graphName: string, prevId: int)
    requires WaysValid(w) && "level" in properties && (prevId == -1 || 0 <= prevId < |w.nodes|)
    ensures WaysValid(AddPoint(w, key, properties, graphName, prevId).0)
    ensures Grows(w, AddPoint(w, key, properties, graphName, prevId).0)
    ensures 0 <= AddPoint(w, key, properties, graphName, prevId).1 < |AddPoint(w, key, properties, graphName, prevId).0.nodes|
  {
    AddPointSound(w, key, properties, graphName, prevId);
  }

  /**
   * A line keeps the graph consistent and only appends to it; with a previous node it
   * adds one edge per point, otherwise one fewer.
   */
  lemma {:induction false} AddPointsGrows(w: Ways, coords: seq<seq<real>>, properties: Tags, graphName: string, prevId: int)
    requires WaysValid(w) && PointsReadable(coords, properties) && (prevId == -1 || 0 <= prevId < |w.nodes|)
    ensures WaysValid(AddPoints(w, coords, properties, graphName, prevId))
    ensures Grows(w, AddPoints(w, coords, properties, graphName, prevId))
    ensures |AddPoints(w, coords, properties, graphName, prevId).edges|
      == |w.edges| + (if |coords| == 0 || prevId == -1 then 0 else 1) + (if |coords| == 0 then 0 else |coords| - 1)
    decreases |coords|
  {
    if |coords| > 0 {
      var key := KeyOf(coords[0]);
      AddPointSound(w, key, properties, graphName, prevId);
      var step := AddPoint(w, key, properties, graphName, prevId);
      assert PointsReadable(coords[1..], properties);
      AddPointsGrows(step.0, coords[1..], properties, graphName, step.1);
      GrowsTrans(w, step.0, AddPoints(step.0, coords[1..], properties, graphName, step.1));
    }
  }

  /** With a previous node, a line's first edge joins it to the node at the line's first point. */
  lemma AddPointsFirstEdge(w: Ways, coords: seq<seq<real>>, properties: Tags, graphName: string, prevId: int)
    requires WaysValid(w) && PointsReadable(coords, properties) && 0 <= prevId < |w.nodes| && |coords| > 0
    ensures var w' := AddPoints(w, coords, properties, graphName, prevId);
      WaysValid(w') && |w.edges| < |w'.edges| && w'.edges[|w.edges|].0 == prevId
      && At(w'.nodes[w'.edges[|w.edges|].1], KeyOf(coords[0])) && PyEq(w'.nodes[w'.edges[|w.edges|].1].level, properties["level"])
  {
    var key := KeyOf(coords[0]);
    AddPointSound(w, key, properties, graphName, prevId);
    var step := AddPoint(w, key, properties, graphName, prevId);
    assert PointsReadable(coords[1..], properties);
    AddPointsGrows(step.0, coords[1..], properties, graphName, step.1);
    var w' := AddPoints(step.0, coords[1..], properties, graphName, step.1);
    assert w'.edges[|w.edges|] == step.0.edges[|w.edges|] by {
      assert w'.edges[..|step.0.edges|] == step.0.edges;
    }
    assert w'.nodes[step.1] == step.0.nodes[step.1] by {
      assert w'.nodes[..|step.0.nodes|] == step.0.nodes;
    }
  }

  /** Edge `first + k` of `w` joins the nodes standing at points `k` and `k + 1` of `coords`, both at `level`. */
  predicate JoinsPoints(w: Ways, first: nat, coords: seq<seq<real>>, k: nat, level: Value)
    requires WaysValid(w) && k + 1 < |coords| && |coords[k]| >= 2 && |coords[k + 1]| >= 2
  {
    first + k < |w.edges|
    && At(w.nodes[w.edges[first + k].0], KeyOf(coords[k])) && PyEq(w.nodes[w.edges[first + k].0].level, level)
    && At(w.nodes[w.edges[first + k].1], KeyOf(coords[k + 1])) && PyEq(w.nodes[w.edges[first + k].1].level, level)
  }

  /** Edges `first`, `first + 1`, ... of `w` join the consecutive points of `coords`. */
  predicate LineEdges(w: Ways, first: nat, coords: seq<seq<real>>, level: Value)
    requires WaysValid(w) && forall j :: 0 <= j < |coords| ==> |coords[j]| >= 2
  {
    forall k :: 0 <= k < |coords| - 1 ==> JoinsPoints(w, first, coords, k, level)
  }

  /** An edge joining points `k - 1` and `k` of the line's tail joins points `k` and `k + 1` of the line. */
  lemma JoinsShift(w: Ways, first: nat, coords: seq<seq<real>>, k: nat, level: Value)
    requires WaysValid(w) && 0 < k && k + 1 < |coords| && forall j :: 0 <= j < |coords| ==> |coords[j]| >= 2
    requires LineEdges(w, first + 1, coords[1..], level)
    ensures JoinsPoints(w, first, coords, k, level)
  {
    assert JoinsPoints(w, first + 1, coords[1..], k - 1, level);
    assert coords[k] == coords[1..][k - 1] && coords[k + 1] == coords[1..][k];
  }

  /**
   * The k-th edge a line adds after the one from the previous node joins the nodes
   * standing at its points k and k + 1, each at the line's level.
   */
  lemma {:induction false} AddPointsEdges(w: Ways, coords: seq<seq<real>>, properties: Tags, graphName: string, prevId: int)
    requires WaysValid(w) && PointsReadable(coords, properties) && (prevId == -1 || 0 <= prevId < |w.nodes|)
    ensures var w' := AddPoints(w, coords, properties, graphName, prevId);
      WaysValid(w') && (|coords| > 0 ==> LineEdges(w', |w.edges| + (if prevId == -1 then 0 else 1), coords, properties["level"]))
    decreases |coords|
  {
    AddPointsGrows(w, coords, properties, graphName, prevId);
    if |coords| > 1 {
      var key := KeyOf(coords[0]);
      AddPointSound(w, key, properties, graphName, prevId);
      var step := AddPoint(w, key, properties, graphName, prevId);
      var rest := coords[1..];
      assert PointsReadable(rest, properties);
      AddPointsEdges(step.0, rest, properties, graphName, step.1);
      AddPointsFirstEdge(step.0, rest, properties, graphName, step.1);
      AddPointsGrows(step.0, rest, properties, graphName, step.1);
      var w' := AddPoints(step.0, rest, properties, graphName, step.1);
      assert w'.nodes[step.1] == step.0.nodes[step.1] by {
        assert w'.nodes[..|step.0.nodes|] == step.0.nodes;
      }
      var first := |w.edges| + (if prevId == -1 then 0 else 1);
      assert first == |step.0.edges|;
      forall k | 0 <= k < |coords| - 1
        ensures JoinsPoints(w', first, coords, k, properties["level"])
      {
        if k > 0 {
          JoinsShift(w', first, coords, k, properties["level"]);
        } else {
          assert coords[1] == rest[0];
        }
      }
    }
  }

  /** The features seen so far leave a consistent graph that only grew. */
  lemma {:induction false} AddFeaturesSound(w: Ways, fs: seq<LineFeature>, graphName: string)
    requires WaysValid(w) && LinesReadable(fs)
    ensures WaysValid(AddFeatures(w, fs, graphName)) && Grows(w, AddFeatures(w, fs, graphName))
    decreases |fs|
  {
    assert w.nodes[..|w.nodes|] == w.nodes && w.edges[..|w.edges|] == w.edges;
    if |fs| > 0 {
      var init := fs[..|fs| - 1];
      assert LinesReadable(init);
      AddFeaturesSound(w, init, graphName);
      var prev := AddFeatures(w, init, graphName);
      var f := fs[|fs| - 1];
      if f.geometry.Some? {
        AddPointsGrows(prev, f.geometry.value, f.properties, graphName, -1);
      } else {
        assert prev.nodes[..|prev.nodes|] == prev.nodes && prev.edges[..|prev.edges|] == prev.edges;
      }
      GrowsTrans(w, prev, AddFeatures(w, fs, graphName));
    }
  }

  /** A point met twice at an equal level is one node: the second time adds none. */
  lemma RepeatedPointShared(w: Ways, key: (real, real), properties: Tags, graphName: string, prevId: int)
    requires WaysValid(w) && "level" in properties && (prevId == -1 || 0 <= prevId < |w.nodes|)
    ensures var w1, id := AddPoint(w, key, properties, graphName, prevId).0, AddPoint(w, key, properties, graphName, prevId).1;
      AddPoint(w1, key, properties, graphName, id).1 == id && AddPoint(w1, key, properties, graphName, id).0.nodes == w1.nodes
  {
    var level := properties["level"];
    PyEqReflexive(level);
    var w1, id := AddPoint(w, key, properties, graphName, prevId).0, AddPoint(w, key, properties, graphName, prevId).1;
    if Reused(w, key, level) {
      assert w1.hashes == w.hashes;
    } else {
      assert w1.hashes[key] == HashEntry(level, id);
    }
  }

  /** The node positions' distances from `point`, in list order. */
  function Distances(point: LatLon, nodes: seq<PathNode>, distance: Distance): seq<real> {
    seq(|nodes|, i requires 0 <= i < |nodes| => distance(point, (nodes[i].lat, nodes[i].lon)))
  }

  /** The position of the first smallest value: the one a scan with a strict `<` keeps. */
  function FirstMin(ds: seq<real>): (k: nat)
    requires |ds| >= 1
    ensures k < |ds|
    decreases |ds|
  {
    if |ds| == 1 then 0
    else
      var k := FirstMin(ds[..|ds| - 1]);
      if ds[|ds| - 1] < ds[k] then |ds| - 1 else k
  }

  /** The position found holds a smallest value, and every earlier value is strictly larger. */
  lemma {:induction false} FirstMinIsFirstMin(ds: seq<real>)
    requires |ds| >= 1
    ensures forall j :: 0 <= j < |ds| ==> ds[FirstMin(ds)] <= ds[j]
    ensures forall j :: 0 <= j < FirstMin(ds) ==> ds[j] > ds[FirstMin(ds)]
    decreases |ds|
  {
    if |ds| > 1 {
      var init := ds[..|ds| - 1];
      FirstMinIsFirstMin(init);
      assert forall j :: 0 <= j < |init| ==> init[j] == ds[j];
    }
  }

  /** What `_nearest_node` returns: no id for no nodes, otherwise the id of the first nearest node. */
  function Nearest(point: LatLon, nodes: seq<PathNode>, distance: Distance): Option<int> {
    if |nodes| == 0 then None else Some(nodes[FirstMin(Distances(point, nodes, distance))].id)
  }

  /**
   * There is a nearest node exactly when there are nodes, and it is a node no further
   * than any other and strictly nearer than every node before it.
   */
  lemma NearestIsNearest(point: LatLon, nodes: seq<PathNode>, distance: Distance)
    ensures Nearest(point, nodes, distance).None? <==> |nodes| == 0
    ensures Nearest(point, nodes, distance).Some? ==>
      exists k :: 0 <= k < |nodes| && Nearest(point, nodes, distance).value == nodes[k].id
        && (forall j :: 0 <= j < |nodes| ==> distance(point, (nodes[k].lat, nodes[k].lon)) <= distance(point, (nodes[j].lat, nodes[j].lon)))
        && (forall j :: 0 <= j < k ==> distance(point, (nodes[j].lat, nodes[j].lon)) > distance(point, (nodes[k].lat, nodes[k].lon)))
  {
    if |nodes| > 0 {
      var ds := Distances(point, nodes, distance);
      var k := FirstMin(ds);
      FirstMinIsFirstMin(ds);
      assert forall j :: 0 <= j < |nodes| ==> ds[j] == distance(point, (nodes[j].lat, nodes[j].lon));
      assert Nearest(point, nodes, distance).value == nodes[k].id;
    }
  }

  /** `_nearest_node`: a single node is returned unmeasured; otherwise the scan keeps a strictly nearer node. */
  method NearestNode(point: LatLon, nodes: seq<PathNode>, distance: Distance) returns (nearestId: Option<int>)
    ensures nearestId == Nearest(point, nodes, distance)
  {
    if |nodes| == 1 {
      return Some(nodes[0].id);
    }
    if |nodes| == 0 {
      return None;
    }
    ghost var ds := Distances(point, nodes, distance);
    var nearest := 0;
    var minDistance := distance(point, (nodes[0].lat, nodes[0].lon));
    for i := 1 to |nodes|
      invariant nearest == FirstMin(ds[..i]) && minDistance == ds[nearest]
    {
      assert ds[..i + 1][..i] == ds[..i];
      var d := distance(point, (nodes[i].lat, nodes[i].lon));
      if d < minDistance {
        nearest, minDistance := i, d;
      }
    }
    assert ds[..|nodes|] == ds;
    return Some(nodes[nearest].id);
  }

  /** `[n for n in self.nodes if n.poly_id == poly_id]`. */
  function NodesIn(nodes: seq<PathNode>, polyId: int): seq<PathNode>
    decreases |nodes|
  {
    if |nodes| == 0 then []
    else NodesIn(nodes[..|nodes| - 1], polyId) + if nodes[|nodes| - 1].polyId == polyId then [nodes[|nodes| - 1]] else []
  }

  /** The room's nodes are exactly the nodes whose `poly_id` is the room's. */
  lemma {:induction false} NodesInMembers(nodes: seq<PathNode>, polyId: int)
    ensures forall n :: n in NodesIn(nodes, polyId) <==> n in nodes && n.polyId == polyId
    decreases |nodes|
  {
    if |nodes| > 0 {
      var init := nodes[..|nodes| - 1];
      NodesInMembers(init, polyId);
      assert nodes == init + [nodes[|nodes| - 1]];
    }
  }

  /** What `parse_poi` reads without raising: two coordinates and a level `float` accepts. */
  predicate PoiReadable(p: PoiFeature) {
    |p.coordinates| >= 2 && "level" in p.properties && PyFloatOf(p.properties["level"]).Some?
  }

  predicate PoisReadable(ps: seq<PoiFeature>) {
    forall j :: 0 <= j < |ps| ==> PoiReadable(ps[j])
  }

  /**
   * The point of interest `parse_poi` appends: the room is looked up at the level
   * read as a float, and the nearest path node is looked for among that room's nodes.
   */
  function PoiOf(polygons: seq<Polygon>, nodes: seq<PathNode>, graphName: string, id: int, p: PoiFeature,
                 contains: Containment, distance: Distance): PoI
    requires PoiReadable(p)
  {
    var point := (p.coordinates[1], p.coordinates[0]);
    var room := RoomOf(polygons, point, Real(PyFloatOf(p.properties["level"]).value), contains);
    var nearest := if room.Some? then Nearest(point, NodesIn(nodes, room.value.id), distance) else None;
    PoI(id, graphName, p.properties["level"], p.coordinates[0], p.coordinates[1], nearest, p.properties)
  }

  /**
   * A point of interest keeps its raw level, its coordinates and properties, and has a
   * nearest node exactly when a room on its level contains it and that room has path
   * nodes; the node is then one of the room's, no further from the point than any other.
   */
  lemma PoiOfNearest(polygons: seq<Polygon>, nodes: seq<PathNode>, graphName: string, id: int, p: PoiFeature,
                     contains: Containment, distance: Distance)
    requires PoiReadable(p)
    ensures var poi := PoiOf(polygons, nodes, graphName, id, p, contains, distance);
      poi.id == id && poi.level == p.properties["level"] && poi.lon == p.coordinates[0] && poi.lat == p.coordinates[1]
      && poi.tags == p.properties
    ensures var point := (p.coordinates[1], p.coordinates[0]);
      var room := RoomOf(polygons, point, Real(PyFloatOf(p.properties["level"]).value), contains);
      PoiOf(polygons, nodes, graphName, id, p, contains, distance).nearestPathNode.Some? <==>
        room.Some? && exists n :: n in nodes && n.polyId == room.value.id
    ensures var point := (p.coordinates[1], p.coordinates[0]);
      var room := RoomOf(polygons, point, Real(PyFloatOf(p.properties["level"]).value), contains);
      PoiOf(polygons, nodes, graphName, id, p, contains, distance).nearestPathNode.Some? ==>
        exists n :: n in nodes && n.polyId == room.value.id && n.id == PoiOf(polygons, nodes, graphName, id, p, contains, distance).nearestPathNode.value
          && forall m :: m in nodes && m.polyId == room.value.id ==>
               distance(point, (n.lat, n.lon)) <= distance(point, (m.lat, m.lon))
  {
    var point := (p.coordinates[1], p.coordinates[0]);
    var room := RoomOf(polygons, point, Real(PyFloatOf(p.properties["level"]).value), contains);
    if room.Some? {
      var inRoom := NodesIn(nodes, room.value.id);
      NodesInMembers(nodes, room.value.id);
      NearestIsNearest(point, inRoom, distance);
      if |inRoom| > 0 {
        assert inRoom[0] in inRoom;
        var k :| 0 <= k < |inRoom| && Nearest(point, inRoom, distance).value == inRoom[k].id
          && (forall j :: 0 <= j < |inRoom| ==> distance(point, (inRoom[k].lat, inRoom[k].lon)) <= distance(point, (inRoom[j].lat, inRoom[j].lon)));
        assert inRoom[k] in inRoom;
        forall m | m in nodes && m.polyId == room.value.id
          ensures distance(point, (inRoom[k].lat, inRoom[k].lon)) <= distance(point, (m.lat, m.lon))
        {
          var j :| 0 <= j < |inRoom| && inRoom[j] == m;
        }
      } else {
        assert forall n :: n in nodes && n.polyId == room.value.id ==> n in inRoom;
      }
    }
  }

  /** The points of interest `parse_pois` appends: one per feature, the `k`-th numbered `start + k`. */
  function PoisOf(polygons: seq<Polygon>, nodes: seq<PathNode>, graphName: string, start: int, ps: seq<PoiFeature>,
                  contains: Containment, distance: Distance): seq<PoI>
    requires PoisReadable(ps)
  {
    seq(|ps|, k requires 0 <= k < |ps| && PoisReadable(ps) => PoiOf(polygons, nodes, graphName, start + k, ps[k], contains, distance))
  }

  /** Numbering the next feature's point of interest by the count so far extends the list. */
  lemma PoisOfSnoc(polygons: seq<Polygon>, nodes: seq<PathNode>, graphName: string, start: int,
                   ps: seq<PoiFeature>, i: nat, contains: Containment, distance: Distance)
    requires i < |ps| && PoisReadable(ps)
    ensures PoisReadable(ps[..i]) && PoisReadable(ps[..i + 1])
    ensures |PoisOf(polygons, nodes, graphName, start, ps[..i], contains, distance)| == i
    ensures PoisOf(polygons, nodes, graphName, start, ps[..i + 1], contains, distance)
      == PoisOf(polygons, nodes, graphName, start, ps[..i], contains, distance)
         + [PoiOf(polygons, nodes, graphName, start + i, ps[i], contains, distance)]
  {
    var longer := PoisOf(polygons, nodes, graphName, start, ps[..i + 1], contains, distance);
    var shorter := PoisOf(polygons, nodes, graphName, start, ps[..i], contains, distance);
    var next := PoiOf(polygons, nodes, graphName, start + i, ps[i], contains, distance);
    forall k | 0 <= k < i + 1
      ensures longer[k] == (shorter + [next])[k]
    {
      assert ps[..i + 1][k] == ps[k];
      if k < i {
        assert ps[..i][k] == ps[k];
      }
    }
    assert longer == shorter + [next];
  }

  class Parser {
    /** `graph_name`. */
    var graphName: string
    /** `poly_parser`: the rooms of the map. */
    var rooms: PolygonParser
    /** `json_linestring["features"]`. */
    var lines: seq<LineFeature>
    /** `json_points["features"]`. */
    var points: seq<PoiFeature>
    var edges: seq<(int, int)>
    var nodes: seq<PathNode>
    var pois: seq<PoI>
    /** `polygons`: the room parser's polygons. */
    var polygons: seq<Polygon>
    /** `__node_hashes`: for each point `(lon, lat)` met, the level and id of its latest node. */
    var nodeHashes: map<(real, real), HashEntry>

    /**
     * `Parser(graph_name, polygons, linestring, points)`: the rooms are loaded, the lines
     * parsed into path nodes and edges, each node placed in its room, and the points of
     * interest tied to their rooms' nodes.
     */
    constructor (graphName: string, polygonFeatures: seq<PolyFeature>, lines: seq<LineFeature>, points: seq<PoiFeature>,
                 contains: Containment, distance: Distance)
      requires AllShaped(polygonFeatures) && LinesReadable(lines) && PoisReadable(points)
      ensures fresh(rooms) && rooms.Valid() && polygons == rooms.polygons == LoadAll([], polygonFeatures, graphName)
      ensures this.graphName == graphName && this.lines == lines && this.points == points
      ensures edges == AddFeatures(Ways([], [], map[]), lines, graphName).edges
      ensures nodeHashes == AddFeatures(Ways([], [], map[]), lines, graphName).hashes
      ensures |nodes| == |AddFeatures(Ways([], [], map[]), lines, graphName).nodes|
      ensures forall i :: 0 <= i < |nodes| ==> nodes[i] == rooms.Located(AddFeatures(Ways([], [], map[]), lines, graphName).nodes[i], contains)
      ensures pois == PoisOf(polygons, nodes, graphName, 0, points, contains, distance)
    {
      var polyParser := new PolygonParser(graphName, polygonFeatures);
      polyParser.LoadPolygons();
      this.graphName := graphName;
      rooms := polyParser;
      this.lines := lines;
      this.points := points;
      edges := [];
      nodes := [];
      pois := [];
      polygons := polyParser.polygons;
      nodeHashes := map[];
      new;
      ghost var w := AddFeatures(Ways([], [], map[]), lines, graphName);
      assert Graph() == Ways([], [], map[]);
      ParseNodes();
      assert Graph() == w;
      nodes := rooms.ParseRooms(nodes, contains);
      ParsePois(contains, distance);
    }

    /** The path graph as a value. */
    function Graph(): Ways
      reads this
    {
      Ways(nodes, edges, nodeHashes)
    }

    /** `parse_node_feature`. */
    method ParseNodeFeature(feature: LineFeature)
      requires LineReadable(feature)
      modifies this`nodes, this`edges, this`nodeHashes
      ensures Graph() == AddFeature(old(Graph()), feature, graphName)
    {
      var prevId := -1;
      if feature.geometry.None? {
        return;
      }
      var coords := feature.geometry.value;
      for i := 0 to |coords|
        invariant PointsReadable(coords[i..], feature.properties)
        invariant AddPoints(Graph(), coords[i..], feature.properties, graphName, prevId)
          == AddFeature(old(Graph()), feature, graphName)
      {
        assert coords[i..][1..] == coords[i + 1..];
        var point := (coords[i][0], coords[i][1]);
        var pointLevel := feature.properties["level"];
        var nodeId;
        if point in nodeHashes && PyEq(nodeHashes[point].level, pointLevel) {
          nodeId := nodeHashes[point].id;
        } else {
          nodeId := |nodes|;
          nodes := nodes + [PathNode(nodeId, graphName, pointLevel, point.1, point.0, -1, feature.properties)];
          nodeHashes := nodeHashes[point := HashEntry(pointLevel, nodeId)];
        }
        if prevId != -1 {
          edges := edges + [(prevId, nodeId)];
        }
        prevId := nodeId;
      }
    }

    /** `parse_nodes`: every line feature in turn. */
    method ParseNodes()
      requires LinesReadable(lines)
      modifies this`nodes, this`edges, this`nodeHashes
      ensures Graph() == AddFeatures(old(Graph()), lines, graphName)
    {
      for i := 0 to |lines|
        invariant LinesReadable(lines[..i])
        invariant Graph() == AddFeatures(old(Graph()), lines[..i], graphName)
      {
        assert lines[..i + 1][..i] == lines[..i];
        ParseNodeFeature(lines[i]);
      }
      assert lines[..|lines|] == lines;
    }

    /** `parse_poi`: the point of interest is numbered by the count so far and appended. */
    method ParsePoi(poi: PoiFeature, contains: Containment, distance: Distance)
      requires rooms.Valid() && PoiReadable(poi)
      modifies this`pois
      ensures pois == old(pois) + [PoiOf(rooms.polygons, nodes, graphName, |old(pois)|, poi, contains, distance)]
    {
      var poiId := |pois|;
      var point := poi.coordinates;
      var poiLatLon := (point[1], point[0]);
      var room := rooms.InPoly(poiLatLon, Real(PyFloatOf(poi.properties["level"]).value), contains);
      var nearestPathNode;
      if room.Some? {
        var polyId := room.value.id;
        var roomNodes := [];
        for i := 0 to |nodes|
          invariant roomNodes == NodesIn(nodes[..i], polyId)
        {
          assert nodes[..i + 1][..i] == nodes[..i];
          if nodes[i].polyId == polyId {
            roomNodes := roomNodes + [nodes[i]];
          }
        }
        assert nodes[..|nodes|] == nodes;
        nearestPathNode := NearestNode(poiLatLon, roomNodes, distance);
      } else {
        nearestPathNode := None;
      }
      pois := pois + [PoI(poiId, graphName, poi.properties["level"], point[0], point[1], nearestPathNode, poi.properties)];
    }

    /** `parse_pois`: every point of interest in turn. */
    method ParsePois(contains: Containment, distance: Distance)
      requires rooms.Valid() && PoisReadable(points)
      modifies this`pois
      ensures pois == old(pois) + PoisOf(rooms.polygons, nodes, graphName, |old(pois)|, points, contains, distance)
    {
      ghost var start, ns, name, ps, ps0 := |pois|, nodes, graphName, points, rooms.polygons;
      for i := 0 to |points|
        invariant nodes == ns && graphName == name && points == ps && rooms.polygons == ps0
        invariant PoisReadable(ps[..i])
        invariant pois == old(pois) + PoisOf(ps0, ns, name, start, ps[..i], contains, distance)
      {
        PoisOfSnoc(ps0, ns, name, start, ps, i, contains, distance);
        AppendAssoc(old(pois), PoisOf(ps0, ns, name, start, ps[..i], contains, distance),
                    [PoiOf(ps0, ns, name, start + i, ps[i], contains, distance)]);
        ParsePoi(points[i], contains, distance);
      }
      assert ps[..|ps|] == ps;
    }
  }
}
