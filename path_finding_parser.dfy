/**
 * The oldest path-finding parser (Path_Finding/Parser.py). Unlike the other two, each
 * `Parser` object starts with its own empty `nodes` and `edges`. A way's coordinates are
 * its points; each point becomes a new node numbered by its position and named "", and
 * consecutive points of a way are joined. The nodes are then named as in
 * src/path_finding/parser.py: the last room, in file order, with a ring enclosing the node.
 */
module PathFindingParser {
  import opened MapTypes
  import opened LegacyTypes
  import opened LegacyParser

  /** Every point of every way holds two numbers. */
  predicate WaysReadable(ways: seq<seq<seq<real>>>) {
    forall w :: 0 <= w < |ways| ==> PointsReadable(ways[w])
  }

  /** The way loop of the constructor: every way in turn, starting with no previous node. */
  function AddWays(g: Lists, ways: seq<seq<seq<real>>>): Lists
    requires WaysReadable(ways)
    decreases |ways|
  {
    if |ways| == 0 then g
    else AddPoints(AddWays(g, ways[..|ways| - 1]), ways[|ways| - 1], -1)
  }

  /**
   * Starting from empty lists, node ids are positions and every edge is `(i, i + 1)`;
   * way by way, `WayShape` gives the `k` nodes and `k - 1` edges of a way of `k` points.
   */
  lemma {:induction false} WaysShape(ways: seq<seq<seq<real>>>)
    requires WaysReadable(ways)
    ensures Numbered(AddWays(Lists([], []), ways).nodes) && Chained(AddWays(Lists([], []), ways))
    decreases |ways|
  {
    if |ways| > 0 {
      var init := ways[..|ways| - 1];
      assert forall w :: 0 <= w < |init| ==> init[w] == ways[w];
      WaysShape(init);
      WayShape(AddWays(Lists([], []), init), ways[|ways| - 1]);
    }
  }

  class Parser {
    var nodes: seq<Node>
    var edges: seq<(int, int)>

    /**
     * `Parser(path)`, given the ways and rooms its files hold: fresh lists, filled by the
     * way loop, then renamed by the room loops.
     */
    constructor (ways: seq<seq<seq<real>>>, rooms: seq<Region>, encloses: Enclosure)
      requires WaysReadable(ways) && RoomsReadable(rooms)
      ensures edges == AddWays(Lists([], []), ways).edges
      ensures nodes == Renamed(AddWays(Lists([], []), ways).nodes, rooms, encloses)
    {
      nodes := [];
      edges := [];
      new;
      for w := 0 to |ways|
        invariant Lists(nodes, edges) == AddWays(Lists([], []), ways[..w])
      {
        var points := ways[w];
        assert ways[..w + 1][..w] == ways[..w];
        ghost var target := AddWays(Lists([], []), ways[..w + 1]);
        var prevId := -1;
        for j := 0 to |points|
          invariant AddPoints(Lists(nodes, edges), points[j..], prevId) == target
        {
          assert points[j..][1..] == points[j + 1..];
          var id := |nodes|;
          nodes := nodes + [Node(id, Str(""), PointOf(points[j]))];
          if prevId != -1 {
            edges := edges + [(prevId, id)];
          }
          prevId := id;
        }
      }
      assert ways[..|ways|] == ways;
      nodes := NameNodes(nodes, rooms, encloses);
    }
  }
}
