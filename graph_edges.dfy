/**
 * `add_edge` of the first prototype (src/path_finding/graph.py:5-8; the `Graph` class of
 * Path_Finding/Graph.py has the same method): how the adjacency lists the breadth-first
 * search reads are built, as written and as evidently intended.
 */
module GraphEdges {
  import opened PathGraph

  /** `add_edge`: `end`, then `start` itself, is appended to `adj[start]`; no other list changes. */
  method AddEdge(adj: array<seq<int>>, start: int, end: int)
    requires 0 <= start < adj.Length
    modifies adj
    ensures adj[start] == old(adj[start]) + [end, start]
    ensures forall u :: 0 <= u < adj.Length && u != start ==> adj[u] == old(adj[u])
    ensures adj[..] == EdgeAdded(old(adj[..]), start, end)
  {
    adj[start] := adj[start] + [end];
    adj[start] := adj[start] + [start];
  }

  /** The adjacency lists after `add_edge(adj, start, end)` as written. */
  function EdgeAdded(adj: seq<seq<int>>, start: int, end: int): (r: seq<seq<int>>)
    requires 0 <= start < |adj|
    ensures |r| == |adj| && end in r[start] && start in r[start]
    ensures forall u :: 0 <= u < |adj| && u != start ==> r[u] == adj[u]
  {
    adj[start := adj[start] + [end, start]]
  }

  /**
   * As written, `add_edge` links `start` to `end` only: on two bare vertices, after
   * `add_edge(adj, 0, 1)` vertex 0 is not reachable from vertex 1 in any number of hops.
   */
  lemma EdgeOneWay(k: int)
    ensures var g := EdgeAdded([[], []], 0, 1);
      ReachIn(g, 0, 1, 1) && !ReachIn(g, 1, k, 0)
  {
    var g := EdgeAdded([[], []], 0, 1);
    assert g[0] == [1, 0] && g[1] == [];
    assert ReachIn(g, 0, 0, 0);
    if ReachIn(g, 1, k, 0) {
      ClosedHoldsReach(g, 1, [1], k, 0);
    }
  }

  /** `v` lists `u` as a neighbour exactly when `u` lists `v`: every edge runs both ways. */
  predicate Undirected(adj: seq<seq<int>>) {
    forall u, v :: 0 <= u < |adj| && 0 <= v < |adj| ==> (v in adj[u] <==> u in adj[v])
  }

  /** `add_edge` as evidently intended: `end` joins `adj[start]` and `start` joins `adj[end]`. */
  function EdgeAddedBoth(adj: seq<seq<int>>, start: int, end: int): (r: seq<seq<int>>)
    requires 0 <= start < |adj| && 0 <= end < |adj|
    ensures |r| == |adj| && end in r[start] && start in r[end]
    ensures forall u :: 0 <= u < |adj| && u != start && u != end ==> r[u] == adj[u]
  {
    var a := adj[start := adj[start] + [end]];
    a[end := a[end] + [start]]
  }

  /** Adding an edge both ways keeps an undirected graph undirected. */
  lemma EdgeAddedBothUndirected(adj: seq<seq<int>>, start: int, end: int)
    requires 0 <= start < |adj| && 0 <= end < |adj| && Undirected(adj)
    ensures Undirected(EdgeAddedBoth(adj, start, end))
  {
    var r := EdgeAddedBoth(adj, start, end);
    forall u, v | 0 <= u < |r| && 0 <= v < |r|
      ensures v in r[u] <==> u in r[v]
    {
      assert forall w :: 0 <= w < |r| ==> (forall x :: x in r[w] <==> x in adj[w] || (w == start && x == end) || (w == end && x == start));
    }
  }
}
