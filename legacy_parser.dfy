/**
 * The second path-finding parser (src/path_finding/parser.py). Every point becomes a new
 * node, numbered by its position, with no search for an existing node at the same place;
 * a way's coordinates are a list of lines, and its points are chained across those lines.
 * Each node then takes the name of the last room, in file order, one of whose rings
 * encloses it. As in the first parser, `nodes` and `edges` are class attributes shared by
 * every `Parser`.
 */
module LegacyParser {
  import opened MapTypes
  import opened Seqs
  import opened LegacyTypes

  /** A node: `{"id", "name", "coordinates"}`; a new node's name is the empty string. */
  datatype Node = Node(id: int, name: Value, coordinates: Coord)

  /** The shared `nodes` and `edges`, as a value. */
  datatype Lists = Lists(nodes: seq<Node>, edges: seq<(int, int)>)

  /**
   * The points of a way, in order, from the previous point's node `prevId` (-1 when there
   * is none): each point becomes node `len(nodes)`, joined to the previous one.
   */
  function AddPoints(g: Lists, points: seq<seq<real>>, prevId: int): Lists
    requires PointsReadable(points)
    decreases |points|
  {
    if |points| == 0 then g
    else
      var id := |g.nodes|;
      var next := Lists(g.nodes + [Node(id, Str(""), PointOf(points[0]))], if prevId != -1 then g.edges + [(prevId, id)] else g.edges);
      AddPoints(next, points[1..], id)
  }

  /** Every point of every line holds two numbers. */
  predicate LinesReadable(lines: seq<seq<seq<real>>>) {
    forall l :: 0 <= l < |lines| ==> PointsReadable(lines[l])
  }

  /** The points of a way's lines, one line after another. */
  function Flat(lines: seq<seq<seq<real>>>): (points: seq<seq<real>>)
    requires LinesReadable(lines)
    ensures PointsReadable(points)
    decreases |lines|
  {
    if |lines| == 0 then []
    else
      assert LinesReadable(lines[1..]) by {
        assert forall l :: 0 <= l < |lines| - 1 ==> lines[1..][l] == lines[l + 1];
      }
      lines[0] + Flat(lines[1..])
  }

  /** Every way's lines are readable. */
  predicate FeaturesReadable(features: seq<seq<seq<seq<real>>>>) {
    forall f :: 0 <= f < |features| ==> LinesReadable(features[f])
  }

  /** `parse_nodes`: every way in turn, starting with no previous node, its lines chained. */
  function AddFeatures(g: Lists, features: seq<seq<seq<seq<real>>>>): Lists
    requires FeaturesReadable(features)
    decreases |features|
  {
    if |features| == 0 then g
    else AddPoints(AddFeatures(g, features[..|features| - 1]), Flat(features[|features| - 1]), -1)
  }

  /** Nodes numbered from `start`, one per point, each named "". */
  function NewNodes(start: int, points: seq<seq<real>>): seq<Node>
    requires PointsReadable(points)
  {
    seq(|points|, j requires 0 <= j < |points| && PointsReadable(points) => Node(start + j, Str(""), PointOf(points[j])))
  }

  /** The `k - 1` edges joining `k` consecutive ids from `start`, each `(i, i + 1)`. */
  function ChainEdges(start: int, k: nat): seq<(int, int)> {
    seq(if k == 0 then 0 else k - 1, j => (start + j, start + j + 1))
  }

  lemma NewNodesCons(start: int, points: seq<seq<real>>)
    requires |points| > 0 && PointsReadable(points)
    ensures NewNodes(start, points) == [Node(start, Str(""), PointOf(points[0]))] + NewNodes(start + 1, points[1..])
  {
    var rest := points[1..];
    forall j | 0 <= j < |points|
      ensures NewNodes(start, points)[j] == ([Node(start, Str(""), PointOf(points[0]))] + NewNodes(start + 1, rest))[j]
    {
      if j > 0 {
        assert rest[j - 1] == points[j];
      }
    }
  }

  lemma ChainEdgesCons(start: int, k: nat)
    requires k > 0
    ensures ChainEdges(start, k) == (if k > 1 then [(start, start + 1)] else []) + ChainEdges(start + 1, k - 1)
  {
  }

  /**
   * The nodes a way adds are numbered on from the current count and named "", one per
   * point; its edges are one from `prevId` to the first new node when there is a previous
   * node, then `(i, i + 1)` for every two consecutive new nodes.
   */
  lemma {:induction false} AddPointsShape(g: Lists, points: seq<seq<real>>, prevId: int)
    requires PointsReadable(points)
    ensures AddPoints(g, points, prevId).nodes == g.nodes + NewNodes(|g.nodes|, points)
    ensures AddPoints(g, points, prevId).edges
      == g.edges + (if prevId != -1 && |points| > 0 then [(prevId, |g.nodes|)] else []) + ChainEdges(|g.nodes|, |points|)
    decreases |points|
  {
    if |points| > 0 {
      var id := |g.nodes|;
      var node := Node(id, Str(""), PointOf(points[0]));
      var pre := if prevId != -1 then [(prevId, id)] else [];
      var next := Lists(g.nodes + [node], if prevId != -1 then g.edges + [(prevId, id)] else g.edges);
      assert next.edges == g.edges + pre;
      var rest := points[1..];
      assert AddPoints(g, points, prevId) == AddPoints(next, rest, id);
      AddPointsShape(next, rest, id);
      NewNodesCons(id, points);
      AppendAssoc(g.nodes, [node], NewNodes(id + 1, rest));
      ChainEdgesCons(id, |points|);
      AppendAssoc(g.edges, pre, ChainEdges(id, |points|));
    }
  }

  /** Node ids are positions. */
  predicate Numbered(nodes: seq<Node>) {
    forall i :: 0 <= i < |nodes| ==> nodes[i].id == i
  }

  /** Every edge joins a node to the next one: `(i, i + 1)`, both existing nodes. */
  predicate Chained(g: Lists) {
    forall e :: e in g.edges ==> 0 <= e.0 && e.1 == e.0 + 1 && e.1 < |g.nodes|
  }

  /**
   * A way with `k` points adds `k` nodes, whose ids are their positions and whose names are
   * "", and `k - 1` edges, each `(i, i + 1)` between two of its own new nodes: no edge
   * reaches back to an earlier way.
   */
  lemma WayShape(g: Lists, points: seq<seq<real>>)
    requires PointsReadable(points) && Numbered(g.nodes) && Chained(g)
    ensures var g' := AddPoints(g, points, -1);
      |g'.nodes| == |g.nodes| + |points| && Numbered(g'.nodes) && Chained(g')
      && (forall j :: 0 <= j < |points| ==> g'.nodes[|g.nodes| + j] == Node(|g.nodes| + j, Str(""), PointOf(points[j])))
      && |g'.edges| == |g.edges| + (if |points| == 0 then 0 else |points| - 1)
      && (forall j :: |g.edges| <= j < |g'.edges| ==> |g.nodes| <= g'.edges[j].0 && g'.edges[j].1 == g'.edges[j].0 + 1)
  {
    AddPointsShape(g, points, -1);
    var g' := AddPoints(g, points, -1);
    assert g'.edges == g.edges + ChainEdges(|g.nodes|, |points|);
    forall j | 0 <= j < |points|
      ensures g'.nodes[|g.nodes| + j] == Node(|g.nodes| + j, Str(""), PointOf(points[j]))
    {
      assert g'.nodes[|g.nodes| + j] == NewNodes(|g.nodes|, points)[j];
    }
    forall e | e in g'.edges
      ensures 0 <= e.0 && e.1 == e.0 + 1 && e.1 < |g'.nodes|
    {
      var j :| 0 <= j < |g'.edges| && g'.edges[j] == e;
      if j >= |g.edges| {
        assert e == ChainEdges(|g.nodes|, |points|)[j - |g.edges|];
      } else {
        assert e in g.edges;
      }
    }
  }

  /** `parse_nodes` keeps node ids equal to positions and every edge of the form `(i, i + 1)`. */
  lemma {:induction false} FeaturesShape(g: Lists, features: seq<seq<seq<seq<real>>>>)
    requires FeaturesReadable(features) && Numbered(g.nodes) && Chained(g)
    ensures Numbered(AddFeatures(g, features).nodes) && Chained(AddFeatures(g, features))
    decreases |features|
  {
    if |features| > 0 {
      var init := features[..|features| - 1];
      assert forall f :: 0 <= f < |init| ==> init[f] == features[f];
      FeaturesShape(g, init);
      WayShape(AddFeatures(g, init), Flat(features[|features| - 1]));
    }
  }

  /** A room and its rings can be read: it has a "room-name" and every vertex two numbers. */
  predicate RoomReadable(room: Region) {
    "room-name" in room.properties && forall k :: 0 <= k < |room.rings| ==> PointsReadable(room.rings[k])
  }

  predicate RoomsReadable(rooms: seq<Region>) {
    forall r :: 0 <= r < |rooms| ==> RoomReadable(rooms[r])
  }

  /** A node's name after the rings of one room are tried in turn: `roomName` if any of them encloses `c`. */
  function RingsName(name: Value, c: Coord, rings: seq<seq<seq<real>>>, roomName: Value, encloses: Enclosure): Value
    requires forall k :: 0 <= k < |rings| ==> PointsReadable(rings[k])
    decreases |rings|
  {
    if |rings| == 0 then name
    else if encloses(c, Vertices(rings[|rings| - 1])) then roomName
    else RingsName(name, c, rings[..|rings| - 1], roomName, encloses)
  }

  /** A node's name after every room is tried in turn, with no `break`. */
  function RoomsName(name: Value, c: Coord, rooms: seq<Region>, encloses: Enclosure): Value
    requires RoomsReadable(rooms)
    decreases |rooms|
  {
    if |rooms| == 0 then name
    else
      var last := rooms[|rooms| - 1];
      RingsName(RoomsName(name, c, rooms[..|rooms| - 1], encloses), c, last.rings, last.properties["room-name"], encloses)
  }

  /** Every node renamed after the rooms, nothing else changed. */
  function Renamed(nodes: seq<Node>, rooms: seq<Region>, encloses: Enclosure): seq<Node>
    requires RoomsReadable(rooms)
  {
    seq(|nodes|, i requires 0 <= i < |nodes| && RoomsReadable(rooms) =>
      nodes[i].(name := RoomsName(nodes[i].name, nodes[i].coordinates, rooms, encloses)))
  }

  /** Some ring of `room` encloses `c`. */
  predicate RoomEncloses(room: Region, c: Coord, encloses: Enclosure)
    requires RoomReadable(room)
  {
    exists k :: 0 <= k < |room.rings| && encloses(c, Vertices(room.rings[k]))
  }

  /** The rings of a room give the room's name exactly when one of them encloses the point. */
  lemma {:induction false} RingsNameSpec(name: Value, c: Coord, room: Region, rings: seq<seq<seq<real>>>, encloses: Enclosure)
    requires forall k :: 0 <= k < |rings| ==> PointsReadable(rings[k])
    requires "room-name" in room.properties
    ensures (exists k :: 0 <= k < |rings| && encloses(c, Vertices(rings[k])))
      ==> RingsName(name, c, rings, room.properties["room-name"], encloses) == room.properties["room-name"]
    ensures (forall k :: 0 <= k < |rings| ==> !encloses(c, Vertices(rings[k])))
      ==> RingsName(name, c, rings, room.properties["room-name"], encloses) == name
    decreases |rings|
  {
    if |rings| > 0 {
      var init := rings[..|rings| - 1];
      assert forall k :: 0 <= k < |init| ==> init[k] == rings[k];
      RingsNameSpec(name, c, room, init, encloses);
    }
  }

  /**
   * A node ends with the name of the last room, in file order, that encloses it, since
   * later rooms overwrite earlier ones; a node no room encloses keeps its name.
   */
  lemma {:induction false} LastRoomWins(name: Value, c: Coord, rooms: seq<Region>, encloses: Enclosure, r: nat)
    requires RoomsReadable(rooms)
    requires r < |rooms| && RoomEncloses(rooms[r], c, encloses)
    requires forall s :: r < s < |rooms| ==> !RoomEncloses(rooms[s], c, encloses)
    ensures RoomsName(name, c, rooms, encloses) == rooms[r].properties["room-name"]
    decreases |rooms|
  {
    var init, last := rooms[..|rooms| - 1], rooms[|rooms| - 1];
    assert forall s :: 0 <= s < |init| ==> init[s] == rooms[s];
    RingsNameSpec(RoomsName(name, c, init, encloses), c, last, last.rings, encloses);
    if r < |rooms| - 1 {
      LastRoomWins(name, c, init, encloses, r);
    }
  }

  /** A node no room encloses keeps its name. */
  lemma {:induction false} NoRoomKeepsName(name: Value, c: Coord, rooms: seq<Region>, encloses: Enclosure)
    requires RoomsReadable(rooms)
    requires forall s :: 0 <= s < |rooms| ==> !RoomEncloses(rooms[s], c, encloses)
    ensures RoomsName(name, c, rooms, encloses) == name
    decreases |rooms|
  {
    if |rooms| > 0 {
      var init, last := rooms[..|rooms| - 1], rooms[|rooms| - 1];
      assert forall s :: 0 <= s < |init| ==> init[s] == rooms[s];
      RingsNameSpec(RoomsName(name, c, init, encloses), c, last, last.rings, encloses);
      NoRoomKeepsName(name, c, init, encloses);
    }
  }

  /** A node's name once the rooms before `r`, and the first `k` rings of room `r`, are tried. */
  function NameSoFar(n: Node, rooms: seq<Region>, r: nat, k: nat, encloses: Enclosure): Value
    requires RoomsReadable(rooms) && r < |rooms| && k <= |rooms[r].rings|
  {
    assert RoomsReadable(rooms[..r]) by {
      assert forall s :: 0 <= s < r ==> rooms[..r][s] == rooms[s];
    }
    RingsName(RoomsName(n.name, n.coordinates, rooms[..r], encloses), n.coordinates, rooms[r].rings[..k],
      rooms[r].properties["room-name"], encloses)
  }

  /**
   * The room loops of `parse_rooms`: for every room, for every ring, every node the ring
   * encloses takes the room's name.
   */
  method NameNodes(nodes: seq<Node>, rooms: seq<Region>, encloses: Enclosure) returns (named: seq<Node>)
    requires RoomsReadable(rooms)
    ensures named == Renamed(nodes, rooms, encloses)
  {
    named := nodes;
    for r := 0 to |rooms|
      invariant |named| == |nodes|
      invariant RoomsReadable(rooms[..r])
      invariant forall m :: 0 <= m < |nodes| ==>
        named[m] == nodes[m].(name := RoomsName(nodes[m].name, nodes[m].coordinates, rooms[..r], encloses))
    {
      var room := rooms[r];
      var name := room.properties["room-name"];
      for k := 0 to |room.rings|
        invariant |named| == |nodes|
        invariant forall m :: 0 <= m < |nodes| ==> named[m] == nodes[m].(name := NameSoFar(nodes[m], rooms, r, k, encloses))
      {
        var vertices := ReadVertices(room.rings[k]);
        for i := 0 to |named|
          invariant |named| == |nodes|
          invariant forall m :: 0 <= m < i ==> named[m] == nodes[m].(name := NameSoFar(nodes[m], rooms, r, k + 1, encloses))
          invariant forall m :: i <= m < |nodes| ==> named[m] == nodes[m].(name := NameSoFar(nodes[m], rooms, r, k, encloses))
        {
          NameSoFarStep(nodes[i], rooms, r, k, encloses);
          if encloses(named[i].coordinates, vertices) {
            named := named[i := named[i].(name := name)];
          }
        }
      }
      NameSoFarDone(nodes, rooms, r, encloses);
    }
    assert rooms[..|rooms|] == rooms;
  }

  /** One more ring: its room's name if it encloses the node, otherwise the name so far. */
  lemma NameSoFarStep(n: Node, rooms: seq<Region>, r: nat, k: nat, encloses: Enclosure)
    requires RoomsReadable(rooms) && r < |rooms| && k < |rooms[r].rings|
    ensures NameSoFar(n, rooms, r, k + 1, encloses)
      == if encloses(n.coordinates, Vertices(rooms[r].rings[k])) then rooms[r].properties["room-name"]
         else NameSoFar(n, rooms, r, k, encloses)
  {
    assert rooms[r].rings[..k + 1][..k] == rooms[r].rings[..k];
  }

  /** All rings of room `r` tried: the name after the rooms up to and including `r`. */
  lemma NameSoFarDone(nodes: seq<Node>, rooms: seq<Region>, r: nat, encloses: Enclosure)
    requires RoomsReadable(rooms) && r < |rooms|
    ensures RoomsReadable(rooms[..r + 1])
    ensures forall m :: 0 <= m < |nodes| ==>
      (NameSoFar(nodes[m], rooms, r, |rooms[r].rings|, encloses) == RoomsName(nodes[m].name, nodes[m].coordinates, rooms[..r + 1], encloses))
  {
    assert rooms[..r + 1][..r] == rooms[..r];
    assert rooms[r].rings[..|rooms[r].rings|] == rooms[r].rings;
  }

  /**
   * The shared `Parser.nodes` and `Parser.edges`. In Python they are class attributes,
   * so every `Parser` adds to the same lists; one object here holds them.
   */
  class Parser {
    var nodes: seq<Node>
    var edges: seq<(int, int)>

    /** The lists as they stand. */
    function State(): Lists
      reads this
    {
      Lists(nodes, edges)
    }

    /** The class attributes before any parse: both lists empty. */
    constructor ()
      ensures nodes == [] && edges == []
    {
      nodes := [];
      edges := [];
    }

    /** `parse_nodes`, given the ways the file holds: every point of every line of every way, in order. */
    method ParseNodes(features: seq<seq<seq<seq<real>>>>)
      requires FeaturesReadable(features)
      modifies this
      ensures State() == AddFeatures(old(State()), features)
    {
      for f := 0 to |features|
        invariant State() == AddFeatures(old(State()), features[..f])
      {
        var lines := features[f];
        assert features[..f + 1][..f] == features[..f];
        ghost var target := AddFeatures(old(State()), features[..f + 1]);
        var prevId := -1;
        for l := 0 to |lines|
          invariant AddPoints(State(), Flat(lines[l..]), prevId) == target
        {
          var points := lines[l];
          SuffixCons(lines, l);
          assert lines[l..][1..] == lines[l + 1..];
          ghost var rest := Flat(lines[l + 1..]);
          for j := 0 to |points|
            invariant AddPoints(State(), points[j..] + rest, prevId) == target
          {
            assert (points[j..] + rest)[1..] == points[j + 1..] + rest;
            var id := |nodes|;
            nodes := nodes + [Node(id, Str(""), PointOf(points[j]))];
            if prevId != -1 {
              edges := edges + [(prevId, id)];
            }
            prevId := id;
          }
          assert points[|points|..] + rest == rest;
        }
      }
      assert features[..|features|] == features;
    }

    /** `parse_rooms`, given the rooms the file holds: the nodes renamed, the edges untouched. */
    method ParseRooms(rooms: seq<Region>, encloses: Enclosure)
      requires RoomsReadable(rooms)
      modifies this
      ensures nodes == Renamed(old(nodes), rooms, encloses) && edges == old(edges)
    {
      nodes := NameNodes(nodes, rooms, encloses);
    }

    /** What constructing a `Parser` does to the shared lists: `parse_nodes`, then `parse_rooms`. */
    method Parse(features: seq<seq<seq<seq<real>>>>, rooms: seq<Region>, encloses: Enclosure)
      requires FeaturesReadable(features) && RoomsReadable(rooms)
      modifies this
      ensures nodes == Renamed(AddFeatures(old(State()), features).nodes, rooms, encloses)
      ensures edges == AddFeatures(old(State()), features).edges
    {
      ParseNodes(features);
      ParseRooms(rooms, encloses);
    }
  }
}
