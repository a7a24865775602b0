/**
 * The first path-finding parser (src/path_finding/graph_parser.py). Every point of every
 * way becomes a node unless a node already stands at the same coordinates, in which case
 * that node is reused; consecutive points of a way become edges; then each node is named
 * after the first room, or failing that the first access area, that encloses it.
 * `nodes` and `edges` are class attributes in Python, shared by every `Parser`: one
 * `Parser` object here stands for that shared state, and each parse appends to it.
 */
module LegacyGraphParser {
  import opened Wrappers
  import opened MapTypes
  import opened Seqs
  import opened LegacyTypes

  /**
   * A node: `{"id", "name", "coordinates"}`, with "number" and "type" once a region
   * encloses it (`None` while the key is absent). A new node's name is Python's `None`.
   */
  datatype WayNode = WayNode(id: int, name: Value, number: Option<Value>, kind: Option<string>, coordinates: Coord)

  /** A region as `parse_rooms` sees it once tagged: the feature and its "type". */
  datatype TaggedRegion = TaggedRegion(region: Region, kind: string)

  /** The shared `nodes` and `edges`, as a value. */
  datatype Graph = Graph(nodes: seq<WayNode>, edges: seq<(int, int)>)

  /** The position of the first node standing at `p`: the node the `for ... else` search stops at. */
  function FindAt(nodes: seq<WayNode>, p: Coord): (r: Option<nat>)
    ensures r.Some? ==> (r.value < |nodes| && nodes[r.value].coordinates == p
      && forall j :: 0 <= j < r.value ==> nodes[j].coordinates != p)
    ensures r.None? ==> forall j :: 0 <= j < |nodes| ==> nodes[j].coordinates != p
    decreases |nodes|
  {
    if |nodes| == 0 then None
    else if nodes[0].coordinates == p then Some(0)
    else match FindAt(nodes[1..], p)
      case None => None
      case Some(k) => Some(k + 1)
  }

  /**
   * One point of a way: the id of the node already at `p` or of a new unnamed node, and
   * the edge from the previous point's node when there is one.
   */
  function AddPoint(g: Graph, p: Coord, prevId: int): (Graph, int) {
    var found := FindAt(g.nodes, p);
    var id := if found.Some? then g.nodes[found.value].id else |g.nodes|;
    var nodes := if found.Some? then g.nodes else g.nodes + [WayNode(id, Null, None, None, p)];
    (Graph(nodes, if prevId != -1 then g.edges + [(prevId, id)] else g.edges), id)
  }

  /** The points of one way, from the previous point's node `prevId`. */
  function AddLine(g: Graph, points: seq<seq<real>>, prevId: int): Graph
    requires PointsReadable(points)
    decreases |points|
  {
    if |points| == 0 then g
    else
      var step := AddPoint(g, PointOf(points[0]), prevId);
      AddLine(step.0, points[1..], step.1)
  }

  predicate WaysReadable(ways: seq<seq<seq<real>>>) {
    forall w :: 0 <= w < |ways| ==> PointsReadable(ways[w])
  }

  /** `parse_nodes`: every way in turn, each starting with no previous node. */
  function AddWays(g: Graph, ways: seq<seq<seq<real>>>): Graph
    requires WaysReadable(ways)
    decreases |ways|
  {
    if |ways| == 0 then g
    else AddLine(AddWays(g, ways[..|ways| - 1]), ways[|ways| - 1], -1)
  }

  /** Node ids are positions and no two nodes stand at the same coordinates. */
  predicate NodesValid(nodes: seq<WayNode>) {
    (forall i :: 0 <= i < |nodes| ==> nodes[i].id == i)
    && (forall i, j :: 0 <= i < j < |nodes| ==> nodes[i].coordinates != nodes[j].coordinates)
  }

  /** The id of the node at `p`, once there is one. */
  function IdAt(nodes: seq<WayNode>, p: Coord): int
    requires FindAt(nodes, p).Some?
  {
    nodes[FindAt(nodes, p).value].id
  }

  /** The nodes from position `from` on are as `parse_nodes` appends them: named `None`, with no number or type. */
  predicate UnnamedFrom(nodes: seq<WayNode>, from: nat) {
    forall i :: from <= i < |nodes| ==> nodes[i].name == Null && nodes[i].number.None? && nodes[i].kind.None?
  }

  /** `g2`'s nodes extend `g1`'s. */
  predicate Extends(g1: Graph, g2: Graph) {
    |g1.nodes| <= |g2.nodes| && g2.nodes[..|g1.nodes|] == g1.nodes
  }

  /** A node already found keeps being the one found once nodes are appended. */
  lemma FindAtExtended(nodes: seq<WayNode>, more: seq<WayNode>, p: Coord)
    requires |nodes| <= |more| && more[..|nodes|] == nodes && FindAt(nodes, p).Some?
    ensures FindAt(more, p) == FindAt(nodes, p)
  {
    var k := FindAt(nodes, p).value;
    assert more[k] == nodes[k];
    assert forall j :: 0 <= j < k ==> more[j] == nodes[j];
  }

  /**
   * A point keeps the graph valid and extends it; afterwards a node stands at the point,
   * and its id is the one returned. A node is added exactly when none stood there, and
   * it is then unnamed; an edge is added exactly when there is a previous node.
   */
  lemma AddPointSound(g: Graph, p: Coord, prevId: int)
    requires NodesValid(g.nodes)
    ensures var g', id := AddPoint(g, p, prevId).0, AddPoint(g, p, prevId).1;
      NodesValid(g'.nodes) && Extends(g, g')
      && FindAt(g'.nodes, p).Some? && IdAt(g'.nodes, p) == id == FindAt(g'.nodes, p).value
      && (|g'.nodes| == |g.nodes| <==> FindAt(g.nodes, p).Some?)
      && (FindAt(g.nodes, p).None? ==> g'.nodes[id] == WayNode(id, Null, None, None, p))
      && g'.edges == g.edges + (if prevId != -1 then [(prevId, id)] else [])
  {
    var g', id := AddPoint(g, p, prevId).0, AddPoint(g, p, prevId).1;
    if FindAt(g.nodes, p).None? {
      assert g'.nodes[..|g.nodes|] == g.nodes;
      assert g'.nodes[|g.nodes|].coordinates == p;
    }
  }

  /** The nodes a way appends are unnamed, with no number or type. */
  lemma {:induction false} AddLineUnnamed(g: Graph, points: seq<seq<real>>, prevId: int)
    requires PointsReadable(points)
    ensures Extends(g, AddLine(g, points, prevId)) && UnnamedFrom(AddLine(g, points, prevId).nodes, |g.nodes|)
    decreases |points|
  {
    if |points| > 0 {
      var step := AddPoint(g, PointOf(points[0]), prevId);
      var g' := AddLine(step.0, points[1..], step.1);
      AddLineUnnamed(step.0, points[1..], step.1);
      assert g'.nodes[..|g.nodes|] == g.nodes by {
        assert g'.nodes[..|step.0.nodes|][..|g.nodes|] == step.0.nodes[..|g.nodes|];
      }
      forall i | |g.nodes| <= i < |step.0.nodes|
        ensures g'.nodes[i] == step.0.nodes[i]
      {
        assert g'.nodes[..|step.0.nodes|][i] == g'.nodes[i];
      }
    }
  }

  /** The nodes `parse_nodes` appends are unnamed, with no number or type. */
  lemma {:induction false} AddWaysUnnamed(g: Graph, ways: seq<seq<seq<real>>>)
    requires WaysReadable(ways)
    ensures Extends(g, AddWays(g, ways)) && UnnamedFrom(AddWays(g, ways).nodes, |g.nodes|)
    decreases |ways|
  {
    if |ways| > 0 {
      var init := ways[..|ways| - 1];
      assert forall w :: 0 <= w < |init| ==> init[w] == ways[w];
      var mid := AddWays(g, init);
      var g' := AddLine(mid, ways[|ways| - 1], -1);
      AddWaysUnnamed(g, init);
      AddLineUnnamed(mid, ways[|ways| - 1], -1);
      assert g'.nodes[..|g.nodes|] == g.nodes by {
        assert g'.nodes[..|mid.nodes|][..|g.nodes|] == mid.nodes[..|g.nodes|];
      }
      forall i | |g.nodes| <= i < |mid.nodes|
        ensures g'.nodes[i] == mid.nodes[i]
      {
        assert g'.nodes[..|mid.nodes|][i] == g'.nodes[i];
      }
    }
  }

  /** The edges of one way: one per pair of consecutive points, joining their nodes in `nodes`. */
  function LineEdges(nodes: seq<WayNode>, points: seq<seq<real>>): (es: seq<(int, int)>)
    requires PointsReadable(points) && forall j :: 0 <= j < |points| ==> FindAt(nodes, PointOf(points[j])).Some?
    ensures |es| == if |points| == 0 then 0 else |points| - 1
  {
    if |points| <= 1 then []
    else [(IdAt(nodes, PointOf(points[0])), IdAt(nodes, PointOf(points[1])))] + LineEdges(nodes, points[1..])
  }

  /**
   * A way keeps the graph valid and extends it, and afterwards every point of the way
   * has a node.
   */
  lemma {:induction false} AddLineNodes(g: Graph, points: seq<seq<real>>, prevId: int)
    requires NodesValid(g.nodes) && PointsReadable(points)
    ensures NodesValid(AddLine(g, points, prevId).nodes) && Extends(g, AddLine(g, points, prevId))
    ensures forall j :: 0 <= j < |points| ==> FindAt(AddLine(g, points, prevId).nodes, PointOf(points[j])).Some?
    decreases |points|
  {
    if |points| > 0 {
      var p := PointOf(points[0]);
      var g1, id := AddPoint(g, p, prevId).0, AddPoint(g, p, prevId).1;
      AddPointSound(g, p, prevId);
      var rest := points[1..];
      AddLineNodes(g1, rest, id);
      var g' := AddLine(g1, rest, id);
      assert g' == AddLine(g, points, prevId);
      FindAtExtended(g1.nodes, g'.nodes, p);
      forall j | 0 <= j < |points|
        ensures FindAt(g'.nodes, PointOf(points[j])).Some?
      {
        if j > 0 {
          assert points[j] == rest[j - 1];
        }
      }
      assert g'.nodes[..|g.nodes|] == g.nodes by {
        assert g'.nodes[..|g1.nodes|][..|g.nodes|] == g1.nodes[..|g.nodes|];
      }
    }
  }

  /**
   * A way adds an edge from `prevId` to its first point's node when there is a previous
   * node, then one edge per pair of consecutive points, joining their nodes.
   */
  lemma {:induction false} AddLineEdges(g: Graph, points: seq<seq<real>>, prevId: int)
    requires NodesValid(g.nodes) && PointsReadable(points)
    ensures forall j :: 0 <= j < |points| ==> FindAt(AddLine(g, points, prevId).nodes, PointOf(points[j])).Some?
    ensures var g' := AddLine(g, points, prevId);
      g'.edges == g.edges
        + (if prevId != -1 && |points| > 0 then [(prevId, IdAt(g'.nodes, PointOf(points[0])))] else [])
        + LineEdges(g'.nodes, points)
    decreases |points|
  {
    AddLineNodes(g, points, prevId);
    if |points| > 0 {
      var p := PointOf(points[0]);
      var g1, id := AddPoint(g, p, prevId).0, AddPoint(g, p, prevId).1;
      AddPointSound(g, p, prevId);
      var rest := points[1..];
      AddLineEdges(g1, rest, id);
      AddLineNodes(g1, rest, id);
      var g' := AddLine(g1, rest, id);
      assert g' == AddLine(g, points, prevId);
      FindAtExtended(g1.nodes, g'.nodes, p);
      assert IdAt(g'.nodes, p) == id;
      var pre := if prevId != -1 then [(prevId, id)] else [];
      var next := if |rest| > 0 then [(id, IdAt(g'.nodes, PointOf(rest[0])))] else [];
      assert g1.edges == g.edges + pre;
      assert g'.edges == g1.edges + next + LineEdges(g'.nodes, rest);
      if |rest| > 0 {
        assert rest[0] == points[1];
      }
      assert LineEdges(g'.nodes, points) == next + LineEdges(g'.nodes, rest);
      AppendAssoc(g.edges + pre, next, LineEdges(g'.nodes, rest));
      AppendAssoc(g.edges, pre, next + LineEdges(g'.nodes, rest));
    }
  }

  /** A way read with no previous node adds exactly the edges between its consecutive points. */
  lemma AddLineEdgesFresh(g: Graph, points: seq<seq<real>>)
    requires NodesValid(g.nodes) && PointsReadable(points)
    ensures forall j :: 0 <= j < |points| ==> FindAt(AddLine(g, points, -1).nodes, PointOf(points[j])).Some?
    ensures AddLine(g, points, -1).edges == g.edges + LineEdges(AddLine(g, points, -1).nodes, points)
  {
    AddLineEdges(g, points, -1);
    assert g.edges + [] == g.edges;
  }

  /** Edge `j` of a way joins the nodes of its points `j` and `j + 1`. */
  lemma {:induction false} LineEdgesAt(nodes: seq<WayNode>, points: seq<seq<real>>)
    requires PointsReadable(points) && forall j :: 0 <= j < |points| ==> FindAt(nodes, PointOf(points[j])).Some?
    ensures forall j :: 0 <= j < |points| - 1 ==>
      LineEdges(nodes, points)[j] == (IdAt(nodes, PointOf(points[j])), IdAt(nodes, PointOf(points[j + 1])))
    decreases |points|
  {
    if |points| > 1 {
      var rest := points[1..];
      assert forall j :: 0 <= j < |rest| ==> rest[j] == points[j + 1];
      LineEdgesAt(nodes, rest);
    }
  }

  /** A node already found is found at the same place in any extension, so a way's edges do not change. */
  lemma {:induction false} LineEdgesExtended(nodes: seq<WayNode>, more: seq<WayNode>, points: seq<seq<real>>)
    requires |nodes| <= |more| && more[..|nodes|] == nodes && PointsReadable(points)
    requires forall j :: 0 <= j < |points| ==> FindAt(nodes, PointOf(points[j])).Some?
    ensures forall j :: 0 <= j < |points| ==> FindAt(more, PointOf(points[j])).Some?
    ensures LineEdges(more, points) == LineEdges(nodes, points)
    decreases |points|
  {
    forall j | 0 <= j < |points|
      ensures FindAt(more, PointOf(points[j])) == FindAt(nodes, PointOf(points[j]))
    {
      FindAtExtended(nodes, more, PointOf(points[j]));
    }
    if |points| > 1 {
      var rest := points[1..];
      assert forall j :: 0 <= j < |rest| ==> rest[j] == points[j + 1];
      LineEdgesExtended(nodes, more, rest);
    }
  }

  /** Every point of every way has a node. */
  predicate AllFound(nodes: seq<WayNode>, ways: seq<seq<seq<real>>>)
    requires WaysReadable(ways)
  {
    forall w, j :: 0 <= w < |ways| && 0 <= j < |ways[w]| ==> FindAt(nodes, PointOf(ways[w][j])).Some?
  }

  /** The edges of every way, in order: no edge joins one way to the next. */
  function WaysEdges(nodes: seq<WayNode>, ways: seq<seq<seq<real>>>): seq<(int, int)>
    requires WaysReadable(ways) && AllFound(nodes, ways)
    decreases |ways|
  {
    if |ways| == 0 then []
    else
      assert forall w :: 0 <= w < |ways| - 1 ==> ways[..|ways| - 1][w] == ways[w];
      WaysEdges(nodes, ways[..|ways| - 1]) + LineEdges(nodes, ways[|ways| - 1])
  }

  /** The edges of earlier ways do not change as later ways add nodes. */
  lemma {:induction false} WaysEdgesExtended(nodes: seq<WayNode>, more: seq<WayNode>, ways: seq<seq<seq<real>>>)
    requires |nodes| <= |more| && more[..|nodes|] == nodes && WaysReadable(ways) && AllFound(nodes, ways)
    ensures AllFound(more, ways) && WaysEdges(more, ways) == WaysEdges(nodes, ways)
    decreases |ways|
  {
    forall w, j | 0 <= w < |ways| && 0 <= j < |ways[w]|
      ensures FindAt(more, PointOf(ways[w][j])).Some?
    {
      FindAtExtended(nodes, more, PointOf(ways[w][j]));
    }
    if |ways| > 0 {
      var init := ways[..|ways| - 1];
      assert forall w :: 0 <= w < |init| ==> init[w] == ways[w];
      WaysEdgesExtended(nodes, more, init);
      LineEdgesExtended(nodes, more, ways[|ways| - 1]);
    }
  }

  /** `parse_nodes` keeps the graph valid and extends it; afterwards every point of every way has a node. */
  lemma {:induction false} AddWaysNodes(g: Graph, ways: seq<seq<seq<real>>>)
    requires NodesValid(g.nodes) && WaysReadable(ways)
    ensures NodesValid(AddWays(g, ways).nodes) && Extends(g, AddWays(g, ways))
    ensures AllFound(AddWays(g, ways).nodes, ways)
    decreases |ways|
  {
    if |ways| > 0 {
      var init, last := ways[..|ways| - 1], ways[|ways| - 1];
      assert forall w :: 0 <= w < |init| ==> init[w] == ways[w];
      var mid := AddWays(g, init);
      AddWaysNodes(g, init);
      var g' := AddLine(mid, last, -1);
      AddLineNodes(mid, last, -1);
      assert g'.nodes[..|g.nodes|] == g.nodes by {
        assert g'.nodes[..|mid.nodes|][..|g.nodes|] == mid.nodes[..|g.nodes|];
      }
      forall w, j | 0 <= w < |ways| && 0 <= j < |ways[w]|
        ensures FindAt(g'.nodes, PointOf(ways[w][j])).Some?
      {
        if w < |init| {
          assert ways[w] == init[w];
          FindAtExtended(mid.nodes, g'.nodes, PointOf(ways[w][j]));
        }
      }
    }
  }

  /** The edges of all ways are those of all but the last, then the last's. */
  lemma WaysEdgesSnoc(nodes: seq<WayNode>, ways: seq<seq<seq<real>>>)
    requires |ways| > 0 && WaysReadable(ways) && AllFound(nodes, ways)
    ensures WaysReadable(ways[..|ways| - 1]) && AllFound(nodes, ways[..|ways| - 1])
    ensures WaysEdges(nodes, ways) == WaysEdges(nodes, ways[..|ways| - 1]) + LineEdges(nodes, ways[|ways| - 1])
  {
    assert forall w :: 0 <= w < |ways| - 1 ==> ways[..|ways| - 1][w] == ways[w];
  }

  /** The edges `parse_nodes` adds are those of each way in turn, joining the nodes of consecutive points. */
  lemma {:induction false} AddWaysEdges(g: Graph, ways: seq<seq<seq<real>>>)
    requires NodesValid(g.nodes) && WaysReadable(ways)
    ensures AllFound(AddWays(g, ways).nodes, ways)
    ensures AddWays(g, ways).edges == g.edges + WaysEdges(AddWays(g, ways).nodes, ways)
    decreases |ways|
  {
    AddWaysNodes(g, ways);
    if |ways| > 0 {
      var init, last := ways[..|ways| - 1], ways[|ways| - 1];
      var mid := AddWays(g, init);
      var g' := AddLine(mid, last, -1);
      assert g' == AddWays(g, ways);
      WaysEdgesSnoc(g'.nodes, ways);
      var before, after := WaysEdges(g'.nodes, init), LineEdges(g'.nodes, last);
      assert mid.edges == g.edges + before by {
        AddWaysNodes(g, init);
        AddWaysEdges(g, init);
        AddLineNodes(mid, last, -1);
        WaysEdgesExtended(mid.nodes, g'.nodes, init);
      }
      assert g'.edges == mid.edges + after by {
        AddWaysNodes(g, init);
        AddLineEdgesFresh(mid, last);
      }
      AppendAssoc(g.edges, before, after);
    }
  }

  /** With the graph valid, two points share a node id exactly when they are the same point. */
  lemma SameIdSamePoint(nodes: seq<WayNode>, p: Coord, q: Coord)
    requires NodesValid(nodes) && FindAt(nodes, p).Some? && FindAt(nodes, q).Some?
    ensures IdAt(nodes, p) == IdAt(nodes, q) <==> p == q
  {
  }

  /**
   * After `parse_nodes`, two points of the ways, in the same way or in different ways,
   * have the same node id exactly when their coordinates are equal.
   */
  lemma WaysShareIds(g: Graph, ways: seq<seq<seq<real>>>)
    requires NodesValid(g.nodes) && WaysReadable(ways)
    ensures AllFound(AddWays(g, ways).nodes, ways)
    ensures var nodes := AddWays(g, ways).nodes;
      forall w1, j1, w2, j2 :: 0 <= w1 < |ways| && 0 <= j1 < |ways[w1]| && 0 <= w2 < |ways| && 0 <= j2 < |ways[w2]| ==>
        (IdAt(nodes, PointOf(ways[w1][j1])) == IdAt(nodes, PointOf(ways[w2][j2])) <==> PointOf(ways[w1][j1]) == PointOf(ways[w2][j2]))
  {
    AddWaysNodes(g, ways);
    var nodes := AddWays(g, ways).nodes;
    forall w1, j1, w2, j2 | 0 <= w1 < |ways| && 0 <= j1 < |ways[w1]| && 0 <= w2 < |ways| && 0 <= j2 < |ways[w2]|
      ensures IdAt(nodes, PointOf(ways[w1][j1])) == IdAt(nodes, PointOf(ways[w2][j2])) <==> PointOf(ways[w1][j1]) == PointOf(ways[w2][j2])
    {
      SameIdSamePoint(nodes, PointOf(ways[w1][j1]), PointOf(ways[w2][j2]));
    }
  }

  /** `parse_rooms`' region list: every room tagged "room", then every access area tagged "access". */
  function Tagged(rooms: seq<Region>, access: seq<Region>): seq<TaggedRegion> {
    seq(|rooms|, i requires 0 <= i < |rooms| => TaggedRegion(rooms[i], "room"))
      + seq(|access|, i requires 0 <= i < |access| => TaggedRegion(access[i], "access"))
  }

  /** Rooms come first, in file order, then access areas, in file order. */
  lemma TaggedOrder(rooms: seq<Region>, access: seq<Region>)
    ensures |Tagged(rooms, access)| == |rooms| + |access|
    ensures forall i :: 0 <= i < |rooms| ==> Tagged(rooms, access)[i] == TaggedRegion(rooms[i], "room")
    ensures forall i :: 0 <= i < |access| ==> Tagged(rooms, access)[|rooms| + i] == TaggedRegion(access[i], "access")
  {
  }

  /** The two loops that set each feature's "type" and append the access features to the rooms. */
  method TagRegions(rooms: seq<Region>, access: seq<Region>) returns (tagged: seq<TaggedRegion>)
    ensures tagged == Tagged(rooms, access)
  {
    tagged := [];
    for i := 0 to |rooms|
      invariant tagged == Tagged(rooms[..i], [])
    {
      tagged := tagged + [TaggedRegion(rooms[i], "room")];
    }
    assert rooms[..|rooms|] == rooms;
    for i := 0 to |access|
      invariant tagged == Tagged(rooms, access[..i])
    {
      tagged := tagged + [TaggedRegion(access[i], "access")];
    }
    assert access[..|access|] == access;
  }

  /** The first ring of a region can be read. */
  predicate RingReadable(r: Region) {
    |r.rings| >= 1 && PointsReadable(r.rings[0])
  }

  /** `node_coords.isenclosedBy(room_vertices)`, the vertices being those of the region's first ring. */
  predicate EnclosedBy(r: Region, c: Coord, encloses: Enclosure) {
    RingReadable(r) && encloses(c, Vertices(r.rings[0]))
  }

  /**
   * The regions the scan for a node at `c` reads, up to and including the first that
   * encloses it, have a readable first ring, and that one has "room-name" and "room-no".
   */
  predicate Scannable(regions: seq<TaggedRegion>, c: Coord, encloses: Enclosure)
    decreases |regions|
  {
    |regions| == 0
    || (RingReadable(regions[0].region)
      && if EnclosedBy(regions[0].region, c, encloses)
         then "room-name" in regions[0].region.properties && "room-no" in regions[0].region.properties
         else Scannable(regions[1..], c, encloses))
  }

  /** A node named after a region: its "room-name", "room-no" and "type". */
  function NamedAfter(n: WayNode, r: TaggedRegion): (m: WayNode)
    requires "room-name" in r.region.properties && "room-no" in r.region.properties
  {
    n.(name := r.region.properties["room-name"], number := Some(r.region.properties["room-no"]), kind := Some(r.kind))
  }

  /** A node after `parse_rooms`: named after the first region enclosing it, or unchanged. */
  function Located(n: WayNode, regions: seq<TaggedRegion>, encloses: Enclosure): (m: WayNode)
    requires Scannable(regions, n.coordinates, encloses)
    ensures m.id == n.id && m.coordinates == n.coordinates
    decreases |regions|
  {
    if |regions| == 0 then n
    else if EnclosedBy(regions[0].region, n.coordinates, encloses) then NamedAfter(n, regions[0])
    else Located(n, regions[1..], encloses)
  }

  /** The node takes the name, number and type of the first enclosing region, whichever regions follow it. */
  lemma {:induction false} LocatedByFirst(n: WayNode, regions: seq<TaggedRegion>, encloses: Enclosure, k: nat)
    requires Scannable(regions, n.coordinates, encloses)
    requires k < |regions| && EnclosedBy(regions[k].region, n.coordinates, encloses)
    requires forall m :: 0 <= m < k ==> !EnclosedBy(regions[m].region, n.coordinates, encloses)
    ensures "room-name" in regions[k].region.properties && "room-no" in regions[k].region.properties
    ensures Located(n, regions, encloses) == NamedAfter(n, regions[k])
    decreases k
  {
    if k > 0 {
      var rest := regions[1..];
      assert forall m :: 0 <= m < k - 1 ==> rest[m] == regions[m + 1];
      LocatedByFirst(n, rest, encloses, k - 1);
    }
  }

  /** A node no region encloses keeps its name, number and type. */
  lemma {:induction false} LocatedByNone(n: WayNode, regions: seq<TaggedRegion>, encloses: Enclosure)
    requires Scannable(regions, n.coordinates, encloses)
    requires forall m :: 0 <= m < |regions| ==> !EnclosedBy(regions[m].region, n.coordinates, encloses)
    ensures Located(n, regions, encloses) == n
    decreases |regions|
  {
    if |regions| > 0 {
      var rest := regions[1..];
      assert forall m :: 0 <= m < |rest| ==> rest[m] == regions[m + 1];
      LocatedByNone(n, rest, encloses);
    }
  }

  /**
   * The shared `Parser.nodes` and `Parser.edges`. In Python they are class attributes,
   * so every `Parser` adds to the same lists; one object here holds them.
   */
  class Parser {
    var nodes: seq<WayNode>
    var edges: seq<(int, int)>

    /** The lists as they stand. */
    function State(): Graph
      reads this
    {
      Graph(nodes, edges)
    }

    /** The class attributes before any parse: both lists empty. */
    constructor ()
      ensures nodes == [] && edges == []
    {
      nodes := [];
      edges := [];
    }

    /** The `for existing in self.nodes` search for a node at `p`. */
    method Find(p: Coord) returns (r: Option<nat>)
      ensures r == FindAt(nodes, p)
    {
      r := None;
      var k := 0;
      while k < |nodes|
        invariant 0 <= k <= |nodes|
        invariant forall m :: 0 <= m < k ==> nodes[m].coordinates != p
      {
        if nodes[k].coordinates == p {
          r := Some(k);
          return;
        }
        k := k + 1;
      }
    }

    /** One point of a way: reuse or append its node, then add the edge from `prevId`. */
    method ParsePoint(p: Coord, prevId: int) returns (id: int)
      modifies this
      ensures State() == AddPoint(old(State()), p, prevId).0 && id == AddPoint(old(State()), p, prevId).1
    {
      var found := Find(p);
      if found.Some? {
        id := nodes[found.value].id;
      } else {
        id := |nodes|;
        nodes := nodes + [WayNode(id, Null, None, None, p)];
      }
      if prevId != -1 {
        edges := edges + [(prevId, id)];
      }
    }

    /** `parse_nodes`, given the ways the file holds: every point of every way, in order. */
    method ParseNodes(ways: seq<seq<seq<real>>>)
      requires WaysReadable(ways)
      modifies this
      ensures State() == AddWays(old(State()), ways)
    {
      for w := 0 to |ways|
        invariant State() == AddWays(old(State()), ways[..w])
      {
        var points := ways[w];
        assert ways[..w + 1][..w] == ways[..w];
        ghost var target := AddWays(old(State()), ways[..w + 1]);
        var prevId := -1;
        for j := 0 to |points|
          invariant AddLine(State(), points[j..], prevId) == target
        {
          SuffixCons(points, j);
          assert points[j..][1..] == points[j + 1..];
          prevId := ParsePoint(PointOf(points[j]), prevId);
        }
      }
      assert ways[..|ways|] == ways;
    }

    /**
     * `parse_rooms`, given the rooms and access areas the files hold: every node takes the
     * name, number and type of the first region enclosing it; edges are untouched.
     */
    method ParseRooms(rooms: seq<Region>, access: seq<Region>, encloses: Enclosure)
      requires forall i :: 0 <= i < |nodes| ==> Scannable(Tagged(rooms, access), nodes[i].coordinates, encloses)
      modifies this
      ensures edges == old(edges) && |nodes| == |old(nodes)|
      ensures forall i :: 0 <= i < |nodes| ==> nodes[i] == Located(old(nodes)[i], Tagged(rooms, access), encloses)
    {
      var regions := TagRegions(rooms, access);
      for i := 0 to |nodes|
        invariant edges == old(edges) && |nodes| == |old(nodes)|
        invariant forall m :: 0 <= m < i ==> nodes[m] == Located(old(nodes)[m], regions, encloses)
        invariant forall m :: i <= m < |nodes| ==> nodes[m] == old(nodes)[m]
      {
        var node := nodes[i];
        ghost var before := nodes;
        for k := 0 to |regions|
          invariant nodes == before && edges == old(edges)
          invariant Scannable(regions[k..], node.coordinates, encloses)
          invariant Located(node, regions, encloses) == Located(node, regions[k..], encloses)
        {
          SuffixCons(regions, k);
          assert regions[k..][1..] == regions[k + 1..];
          var region := regions[k].region;
          var vertices := ReadVertices(region.rings[0]);
          if encloses(node.coordinates, vertices) {
            nodes := nodes[i := NamedAfter(node, regions[k])];
            break;
          }
        }
      }
    }

    /**
     * What constructing a `Parser` does to the shared lists: `parse_nodes` on the ways,
     * then `parse_rooms` on the rooms and access areas.
     */
    method Parse(ways: seq<seq<seq<real>>>, rooms: seq<Region>, access: seq<Region>, encloses: Enclosure)
      requires WaysReadable(ways)
      requires var added := AddWays(State(), ways).nodes;
        forall i :: 0 <= i < |added| ==> Scannable(Tagged(rooms, access), added[i].coordinates, encloses)
      modifies this
      ensures edges == AddWays(old(State()), ways).edges && |nodes| == |AddWays(old(State()), ways).nodes|
      ensures forall i :: 0 <= i < |nodes| ==> nodes[i] == Located(AddWays(old(State()), ways).nodes[i], Tagged(rooms, access), encloses)
    {
      ParseNodes(ways);
      ParseRooms(rooms, access, encloses);
    }
  }
}
