/**
 * The breadth-first search of the first prototype (src/path_finding/graph.py; the
 * `Graph` class of Path_Finding/Graph.py is the same code, except that its `print_path`
 * walks back from `end` whether or not the search succeeded). The graph is a list of
 * adjacency lists; the caller supplies the `previous` and `distance` lists the search
 * fills. The class has no state of its own, so its methods are module-level here.
 */
module PathGraph {
  import opened Seqs

  /** `adj` has a list for each of the first `vertex` vertices, and every neighbour is below `vertex`. */
  predicate GraphOk(adj: seq<seq<int>>, vertex: nat) {
    vertex <= |adj| && forall u, i :: 0 <= u < vertex && 0 <= i < |adj[u]| ==> 0 <= adj[u][i] < vertex
  }

  /** `v` can be reached from `start` in at most `k` hops along `adj`. */
  ghost predicate ReachIn(adj: seq<seq<int>>, start: int, k: int, v: int)
    decreases k
  {
    if k < 0 then false
    else if k == 0 then v == start
    else ReachIn(adj, start, k - 1, v) || exists u :: 0 <= u < |adj| && ReachIn(adj, start, k - 1, u) && v in adj[u]
  }

  /** `v` can be reached from `start` at all. */
  ghost predicate Reachable(adj: seq<seq<int>>, start: int, v: int) {
    exists k :: ReachIn(adj, start, k, v)
  }

  /** Allowing more hops reaches at least as much. */
  lemma {:induction false} ReachMono(adj: seq<seq<int>>, start: int, k: int, k2: int, v: int)
    requires k <= k2 && ReachIn(adj, start, k, v)
    ensures ReachIn(adj, start, k2, v)
    decreases k2 - k
  {
    if k < k2 {
      ReachMono(adj, start, k, k2 - 1, v);
    }
  }

  /** A vertex reached in `k` hops is `start` or a neighbour of a vertex reached in `k - 1`. */
  lemma {:induction false} ReachCases(adj: seq<seq<int>>, start: int, k: int, v: int)
    requires ReachIn(adj, start, k, v)
    ensures v == start || exists u :: 0 <= u < |adj| && ReachIn(adj, start, k - 1, u) && v in adj[u]
    decreases k
  {
    if k > 0 && ReachIn(adj, start, k - 1, v) {
      ReachCases(adj, start, k - 1, v);
      if v != start {
        var u :| 0 <= u < |adj| && ReachIn(adj, start, k - 2, u) && v in adj[u];
        ReachMono(adj, start, k - 2, k - 1, u);
      }
    }
  }

  /** A set of vertices holding `start` and closed under `adj` holds every reachable vertex. */
  lemma {:induction false} ClosedHoldsReach(adj: seq<seq<int>>, start: int, seen: seq<int>, k: int, v: int)
    requires start in seen
    requires forall x :: x in seen ==> 0 <= x < |adj| && forall i :: 0 <= i < |adj[x]| ==> adj[x][i] in seen
    requires ReachIn(adj, start, k, v)
    ensures v in seen
    decreases k
  {
    ReachCases(adj, start, k, v);
    if v != start {
      var u :| 0 <= u < |adj| && ReachIn(adj, start, k - 1, u) && v in adj[u];
      ClosedHoldsReach(adj, start, seen, k - 1, u);
      var i :| 0 <= i < |adj[u]| && adj[u][i] == v;
    }
  }

  /** `route` goes from `start` to `end` along `adj`, one hop per step. */
  predicate IsRoute(adj: seq<seq<int>>, start: int, end: int, route: seq<int>) {
    |route| >= 1 && route[0] == start && route[|route| - 1] == end
    && forall k :: 0 <= k < |route| - 1 ==> 0 <= route[k] < |adj| && route[k + 1] in adj[route[k]]
  }

  /** A route of `m` vertices reaches its last vertex in `m - 1` hops. */
  lemma {:induction false} RouteReaches(adj: seq<seq<int>>, start: int, end: int, route: seq<int>)
    requires IsRoute(adj, start, end, route)
    ensures ReachIn(adj, start, |route| - 1, end)
    decreases |route|
  {
    if |route| > 1 {
      var m := |route| - 1;
      assert IsRoute(adj, start, route[m - 1], route[..m]);
      RouteReaches(adj, start, route[m - 1], route[..m]);
      assert 0 <= route[m - 1] < |adj| && end in adj[route[m - 1]];
    }
  }

  /** A route whose length is the fewest hops that reach `end` is no longer than any other route. */
  lemma ShortestRoute(adj: seq<seq<int>>, start: int, end: int, route: seq<int>, other: seq<int>)
    requires IsRoute(adj, start, end, route) && !ReachIn(adj, start, |route| - 2, end)
    requires IsRoute(adj, start, end, other)
    ensures |route| <= |other|
  {
    RouteReaches(adj, start, end, other);
    if |other| < |route| {
      ReachMono(adj, start, |other| - 1, |route| - 2, end);
    }
  }

  /** No vertex occurs twice. */
  predicate Distinct(s: seq<int>) {
    forall i, j :: 0 <= i < j < |s| ==> s[i] != s[j]
  }

  /**
   * What the search leaves in `previous` and `distance` for the vertices it has put on
   * the queue, `seen`, in order: `start` first, with distance 0 and no previous vertex;
   * every other one with a previous vertex enqueued before it, of which it is a
   * neighbour, and a distance one more than that vertex's.
   */
  ghost predicate Tree(adj: seq<seq<int>>, vertex: nat, start: int, seen: seq<int>, dist: seq<int>, prev: seq<int>) {
    vertex <= |adj| && vertex <= |dist| && vertex <= |prev|
    && |seen| >= 1 && seen[0] == start && Distinct(seen)
    && (forall j :: 0 <= j < |seen| ==> 0 <= seen[j] < vertex)
    && dist[start] == 0 && prev[start] == -1
    && (forall j {:trigger prev[seen[j]]} :: 0 < j < |seen| ==>
          prev[seen[j]] in seen[..j] && dist[seen[j]] == dist[prev[seen[j]]] + 1 && seen[j] in adj[prev[seen[j]]])
  }

  /** A vertex the search has not reached keeps distance 10000 and previous -1. */
  ghost predicate Untouched(vertex: nat, seen: seq<int>, dist: seq<int>, prev: seq<int>)
    requires vertex <= |dist| && vertex <= |prev|
  {
    forall v :: 0 <= v < vertex && v !in seen ==> dist[v] == 10000 && prev[v] == -1
  }

  /** `v` is reached in `d` hops and in no fewer. */
  ghost predicate Hops(adj: seq<seq<int>>, start: int, d: int, v: int) {
    ReachIn(adj, start, d, v) && !ReachIn(adj, start, d - 1, v)
  }

  /** Every enqueued vertex's distance is the fewest hops that reach it (stated one vertex at a time, from the back). */
  ghost predicate Exact(adj: seq<seq<int>>, start: int, seen: seq<int>, dist: seq<int>)
    decreases |seen|
  {
    |seen| == 0
    || (Exact(adj, start, seen[..|seen| - 1], dist)
        && 0 <= seen[|seen| - 1] < |dist| && Hops(adj, start, dist[seen[|seen| - 1]], seen[|seen| - 1]))
  }

  /** The distance of any one enqueued vertex is exact. */
  lemma {:induction false} ExactAt(adj: seq<seq<int>>, start: int, seen: seq<int>, dist: seq<int>, j: int)
    requires Exact(adj, start, seen, dist) && 0 <= j < |seen|
    ensures 0 <= seen[j] < |dist| && Hops(adj, start, dist[seen[j]], seen[j])
    decreases |seen|
  {
    if j < |seen| - 1 {
      ExactAt(adj, start, seen[..|seen| - 1], dist, j);
    }
  }

  /** Distances do not decrease along the queue order. */
  ghost predicate Ordered(seen: seq<int>, dist: seq<int>)
    requires forall j :: 0 <= j < |seen| ==> 0 <= seen[j] < |dist|
  {
    forall i, j :: 0 <= i <= j < |seen| ==> dist[seen[i]] <= dist[seen[j]]
  }

  /** The first `n` enqueued vertices have had all their neighbours enqueued. */
  ghost predicate Processed(adj: seq<seq<int>>, seen: seq<int>, n: nat) {
    forall j :: 0 <= j < n <= |seen| ==> 0 <= seen[j] < |adj| && forall i :: 0 <= i < |adj[seen[j]]| ==> adj[seen[j]][i] in seen
  }

  /** Every vertex reachable in fewer than `level` hops is among the first `n` enqueued. */
  ghost predicate Complete(adj: seq<seq<int>>, start: int, seen: seq<int>, n: nat, level: int)
    requires n <= |seen|
  {
    forall x :: ReachIn(adj, start, level - 1, x) ==> x in seen[..n]
  }

  /** Every vertex enqueued after position `n` is at most `level` hops from `start`. */
  ghost predicate Within(seen: seq<int>, n: nat, dist: seq<int>, level: int) {
    forall j :: n < j < |seen| && 0 <= seen[j] < |dist| ==> dist[seen[j]] <= level
  }

  /** Enqueueing one more vertex keeps the first `n` expanded. */
  lemma ProcessedGrows(adj: seq<seq<int>>, seen: seq<int>, n: nat, v: int)
    requires n <= |seen| && Processed(adj, seen, n)
    ensures Processed(adj, seen + [v], n)
  {
    forall j | 0 <= j < n
      ensures 0 <= (seen + [v])[j] < |adj| && forall i :: 0 <= i < |adj[(seen + [v])[j]]| ==> adj[(seen + [v])[j]][i] in seen + [v]
    {
      assert (seen + [v])[j] == seen[j];
    }
  }

  /** Enqueueing one more vertex keeps what the first `n` hold. */
  lemma CompleteGrows(adj: seq<seq<int>>, start: int, seen: seq<int>, n: nat, level: int, v: int)
    requires n <= |seen| && Complete(adj, start, seen, n, level)
    ensures Complete(adj, start, seen + [v], n, level)
  {
    assert (seen + [v])[..n] == seen[..n];
  }

  /** The invariant the search keeps, with the first `n` enqueued vertices fully processed. */
  ghost predicate Search(adj: seq<seq<int>>, vertex: nat, start: int, end: int, seen: seq<int>, n: nat,
                         vis: seq<bool>, dist: seq<int>, prev: seq<int>)
  {
    Tree(adj, vertex, start, seen, dist, prev) && |vis| == vertex && n <= |seen|
    && (forall v :: 0 <= v < vertex ==> (vis[v] <==> v in seen))
    && Untouched(vertex, seen, dist, prev)
    && Ordered(seen, dist) && Exact(adj, start, seen, dist)
    && Processed(adj, seen, n)
    && (end in seen ==> end == start)
  }

  /**
   * The invariant once the first `n` enqueued vertices are expanded, with the next one to
   * expand, if any, the nearest of those left.
   */
  ghost predicate Frontier(adj: seq<seq<int>>, vertex: nat, start: int, end: int, seen: seq<int>, n: nat,
                           vis: seq<bool>, dist: seq<int>, prev: seq<int>)
  {
    Search(adj, vertex, start, end, seen, n, vis, dist, prev)
    && (n < |seen| ==> (0 <= seen[n] < |dist| && Complete(adj, start, seen, n, dist[seen[n]])
                        && Within(seen, n, dist, dist[seen[n]] + 1)))
  }

  /** `end` is enqueued, is not `start`, and its distance is the fewest hops that reach it. */
  ghost predicate Hit(adj: seq<seq<int>>, start: int, end: int, seen: seq<int>, dist: seq<int>) {
    0 <= end < |dist| && end in seen && end != start && Hops(adj, start, dist[end], end)
  }

  /** A hit is a reachable vertex other than `start`, found at its fewest hops. */
  lemma HitReachable(adj: seq<seq<int>>, start: int, end: int, seen: seq<int>, dist: seq<int>)
    requires Hit(adj, start, end, seen, dist)
    ensures end != start && Reachable(adj, start, end) && 0 <= end < |dist| && end in seen
    ensures ReachIn(adj, start, dist[end], end) && !ReachIn(adj, start, dist[end] - 1, end)
  {
  }

  /** The number of vertices not yet visited. */
  function Unvisited(vis: seq<bool>): nat {
    if |vis| == 0 then 0 else (if vis[0] then 0 else 1) + Unvisited(vis[1..])
  }

  /** Visiting a vertex leaves one fewer unvisited. */
  lemma {:induction false} VisitOne(vis: seq<bool>, v: nat)
    requires v < |vis| && !vis[v]
    ensures Unvisited(vis[v := true]) == Unvisited(vis) - 1
    decreases |vis|
  {
    if v > 0 {
      assert vis[v := true][1..] == vis[1..][v - 1 := true];
      VisitOne(vis[1..], v - 1);
    }
  }

  /** Enqueueing `v` from `u` keeps the search tree. */
  lemma TreeGrows(adj: seq<seq<int>>, vertex: nat, start: int, seen: seq<int>, dist: seq<int>, prev: seq<int>, u: int, v: int)
    requires Tree(adj, vertex, start, seen, dist, prev)
    requires u in seen && v !in seen && 0 <= v < vertex && v in adj[u]
    ensures Tree(adj, vertex, start, seen + [v], dist[v := dist[u] + 1], prev[v := u])
  {
    var seen', dist', prev' := seen + [v], dist[v := dist[u] + 1], prev[v := u];
    assert v != start by {
      assert seen[0] == start;
    }
    assert seen'[..|seen|] == seen;
    forall j | 0 < j < |seen'|
      ensures prev'[seen'[j]] in seen'[..j] && dist'[seen'[j]] == dist'[prev'[seen'[j]]] + 1
      ensures seen'[j] in adj[prev'[seen'[j]]]
    {
      if j < |seen| {
        assert seen'[j] == seen[j] != v;
        assert seen'[..j] == seen[..j];
        assert prev[seen[j]] in seen;
      } else {
        assert seen'[..j] == seen;
      }
    }
  }

  /** Enqueueing `v` leaves every other vertex untouched. */
  lemma UntouchedGrows(vertex: nat, seen: seq<int>, dist: seq<int>, prev: seq<int>, v: int, d: int, u: int)
    requires vertex <= |dist| && vertex <= |prev| && 0 <= v < vertex
    requires Untouched(vertex, seen, dist, prev)
    ensures Untouched(vertex, seen + [v], dist[v := d], prev[v := u])
  {
  }

  /** Enqueueing `v` at a distance no smaller than any enqueued keeps distances ordered. */
  lemma OrderedGrows(seen: seq<int>, dist: seq<int>, v: int, d: int)
    requires forall j :: 0 <= j < |seen| ==> 0 <= seen[j] < |dist|
    requires 0 <= v < |dist| && v !in seen && Ordered(seen, dist)
    requires forall j :: 0 <= j < |seen| ==> dist[seen[j]] <= d
    ensures Ordered(seen + [v], dist[v := d])
  {
    var seen', dist' := seen + [v], dist[v := d];
    forall j | 0 <= j < |seen'|
      ensures dist'[seen'[j]] == if j < |seen| then dist[seen[j]] else d
    {
      if j < |seen| {
        assert seen'[j] == seen[j] != v;
      }
    }
  }

  /** Enqueueing `v` at the fewest hops that reach it keeps every distance exact. */
  lemma ExactGrows(adj: seq<seq<int>>, start: int, seen: seq<int>, dist: seq<int>, v: int, d: int)
    requires 0 <= v < |dist| && v !in seen && Exact(adj, start, seen, dist) && Hops(adj, start, d, v)
    ensures Exact(adj, start, seen + [v], dist[v := d])
  {
    ExactUpdate(adj, start, seen, dist, v, d);
    assert (seen + [v])[..|seen|] == seen;
  }

  /** Changing the distance of a vertex not enqueued leaves the others exact. */
  lemma {:induction false} ExactUpdate(adj: seq<seq<int>>, start: int, seen: seq<int>, dist: seq<int>, v: int, d: int)
    requires 0 <= v < |dist| && v !in seen && Exact(adj, start, seen, dist)
    ensures Exact(adj, start, seen, dist[v := d])
    decreases |seen|
  {
    if |seen| > 0 {
      ExactUpdate(adj, start, seen[..|seen| - 1], dist, v, d);
    }
  }

  /** A vertex other than `start`, none of whose predecessors is reached in `k - 1` hops, is not reached in `k`. */
  lemma {:induction false} NotReached(adj: seq<seq<int>>, start: int, k: int, v: int)
    requires v != start
    requires forall u :: 0 <= u < |adj| && v in adj[u] ==> !ReachIn(adj, start, k - 1, u)
    ensures !ReachIn(adj, start, k, v)
    decreases k
  {
    if k > 0 {
      forall u | 0 <= u < |adj| && v in adj[u]
        ensures !ReachIn(adj, start, k - 2, u)
      {
        assert !ReachIn(adj, start, k - 1, u);
      }
      NotReached(adj, start, k - 1, v);
    }
  }

  /**
   * A vertex not yet enqueued, found as a neighbour of the vertex being processed, `u`,
   * at distance `dist[u]`, when every vertex reachable in fewer hops than `u` is processed:
   * it is reached in `dist[u] + 1` hops and in no fewer.
   */
  lemma FewestHops(adj: seq<seq<int>>, start: int, seen: seq<int>, n: nat, dist: seq<int>, v: int, d: int)
    requires n < |seen| && seen[0] == start && 0 <= seen[n] < |adj| && seen[n] < |dist|
    requires Processed(adj, seen, n) && Complete(adj, start, seen, n, dist[seen[n]])
    requires ReachIn(adj, start, dist[seen[n]], seen[n]) && !ReachIn(adj, start, dist[seen[n]] - 1, seen[n])
    requires v !in seen && v in adj[seen[n]] && d == dist[seen[n]] + 1
    ensures ReachIn(adj, start, d, v) && !ReachIn(adj, start, d - 1, v)
  {
    var u := seen[n];
    assert dist[u] >= 0;
    assert v != start;
    forall y | 0 <= y < |adj| && v in adj[y]
      ensures !ReachIn(adj, start, dist[u] - 1, y)
    {
      var k :| 0 <= k < |adj[y]| && adj[y][k] == v;
      assert y !in seen[..n];
    }
    NotReached(adj, start, dist[u], v);
    assert ReachIn(adj, start, dist[u] + 1, v);
  }

  /**
   * Discovering `v` from `u`, the vertex being processed, moves the search from
   * `seen, vis, dist, prev` to `seen', vis', dist', prev'`: `v` is one hop further than
   * `u` and no nearer, and the grown state keeps the invariant unless `v` is `end`.
   */
  lemma Discover(adj: seq<seq<int>>, vertex: nat, start: int, end: int, seen: seq<int>, n: nat,
                 vis: seq<bool>, dist: seq<int>, prev: seq<int>, u: int, v: int,
                 seen': seq<int>, vis': seq<bool>, dist': seq<int>, prev': seq<int>)
    requires GraphOk(adj, vertex) && Search(adj, vertex, start, end, seen, n, vis, dist, prev)
    requires n < |seen| && u == seen[n] && Complete(adj, start, seen, n, dist[u])
    requires Within(seen, n, dist, dist[u] + 1)
    requires v in adj[u] && !vis[v]
    requires seen' == seen + [v] && vis' == vis[v := true]
    requires dist' == dist[v := dist[u] + 1] && prev' == prev[v := u]
    ensures Hops(adj, start, dist'[v], v) && v != start
    ensures Tree(adj, vertex, start, seen', dist', prev') && Untouched(vertex, seen', dist', prev')
    ensures Complete(adj, start, seen', n, dist'[u])
    ensures Within(seen', n, dist', dist'[u] + 1)
    ensures Unvisited(vis') == Unvisited(vis) - 1
    ensures v != end ==> Search(adj, vertex, start, end, seen', n, vis', dist', prev')
  {
    var d := dist[u] + 1;
    assert v !in seen && u != v && dist'[v] == d && dist'[u] == dist[u];
    assert Hops(adj, start, d, v) by {
      ExactAt(adj, start, seen, dist, n);
      FewestHops(adj, start, seen, n, dist, v, d);
    }
    assert Tree(adj, vertex, start, seen', dist', prev') by {
      TreeGrows(adj, vertex, start, seen, dist, prev, u, v);
    }
    assert Untouched(vertex, seen', dist', prev') by {
      UntouchedGrows(vertex, seen, dist, prev, v, d, u);
    }
    assert Ordered(seen', dist') by {
      forall j | 0 <= j < |seen|
        ensures dist[seen[j]] <= d
      {
        if j <= n {
          assert dist[seen[j]] <= dist[seen[n]];
        }
      }
      OrderedGrows(seen, dist, v, d);
    }
    assert Exact(adj, start, seen', dist') by {
      ExactGrows(adj, start, seen, dist, v, d);
    }
    assert forall w :: 0 <= w < vertex ==> (vis'[w] <==> w in seen') by {
      LinkGrows(vertex, seen, vis, v);
    }
    assert Unvisited(vis') == Unvisited(vis) - 1 by {
      VisitOne(vis, v);
    }
    assert Complete(adj, start, seen', n, dist'[u]) by {
      CompleteGrows(adj, start, seen, n, dist[u], v);
    }
    assert Processed(adj, seen', n) by {
      ProcessedGrows(adj, seen, n, v);
    }
  }

  /** Marking `v` visited as it is enqueued keeps "visited" and "enqueued" the same. */
  lemma LinkGrows(vertex: nat, seen: seq<int>, vis: seq<bool>, v: int)
    requires |vis| == vertex && 0 <= v < vertex
    requires forall w :: 0 <= w < vertex ==> (vis[w] <==> w in seen)
    ensures forall w :: 0 <= w < vertex ==> (vis[v := true][w] <==> w in seen + [v])
  {
  }

  /** With `k <= k2`, whatever is reached in `k` hops is reached in `k2`. */
  lemma ReachMonoImplies(adj: seq<seq<int>>, start: int, k: int, k2: int, v: int)
    requires k <= k2
    ensures ReachIn(adj, start, k, v) ==> ReachIn(adj, start, k2, v)
  {
    if ReachIn(adj, start, k, v) {
      ReachMono(adj, start, k, k2, v);
    }
  }

  /** One vertex reachable in fewer hops than the next vertex of the queue: it is already processed. */
  lemma NextLevelAt(adj: seq<seq<int>>, start: int, seen: seq<int>, n: nat, dist: seq<int>, x: int)
    requires n + 1 < |seen| && seen[0] == start && forall j :: 0 <= j < |seen| ==> 0 <= seen[j] < |dist|
    requires Ordered(seen, dist) && Exact(adj, start, seen, dist) && Processed(adj, seen, n + 1)
    requires Complete(adj, start, seen, n, dist[seen[n]])
    requires dist[seen[n + 1]] <= dist[seen[n]] + 1
    requires ReachIn(adj, start, dist[seen[n + 1]] - 1, x)
    ensures x in seen[..n + 1]
  {
    var level, next := dist[seen[n]], dist[seen[n + 1]];
    assert level <= next;
    if next == level {
      assert x in seen[..n];
      var jx :| 0 <= jx < n && seen[jx] == x;
      assert seen[..n + 1][jx] == x;
    } else {
      ReachCases(adj, start, level, x);
      if x == start {
        assert seen[..n + 1][0] == x;
      } else {
        var y :| 0 <= y < |adj| && ReachIn(adj, start, level - 1, y) && x in adj[y];
        assert y in seen[..n];
        var jy :| 0 <= jy < n && seen[jy] == y;
        var i :| 0 <= i < |adj[y]| && adj[y][i] == x;
        assert x in seen;
        var jx :| 0 <= jx < |seen| && seen[jx] == x;
        ExactAt(adj, start, seen, dist, jx);
        ReachMonoImplies(adj, start, level, if dist[x] - 1 < level then level else dist[x] - 1, x);
        assert dist[x] <= level;
        assert jx <= n;
        assert seen[..n + 1][jx] == x;
      }
    }
  }

  /** Every vertex reachable in fewer hops than the next vertex of the queue is already processed. */
  lemma NextLevel(adj: seq<seq<int>>, start: int, seen: seq<int>, n: nat, dist: seq<int>, level: int)
    requires n + 1 < |seen| && seen[0] == start && forall j :: 0 <= j < |seen| ==> 0 <= seen[j] < |dist|
    requires Ordered(seen, dist) && Exact(adj, start, seen, dist) && Processed(adj, seen, n + 1)
    requires Complete(adj, start, seen, n, dist[seen[n]])
    requires level == dist[seen[n + 1]] <= dist[seen[n]] + 1
    ensures Complete(adj, start, seen, n + 1, level)
  {
    var lower := level - 1;
    forall x | ReachIn(adj, start, lower, x)
      ensures x in seen[..n + 1]
    {
      NextLevelAt(adj, start, seen, n, dist, x);
    }
  }

  /** The first `i` neighbours in `ns` have all been enqueued. */
  ghost predicate Covered(ns: seq<int>, i: nat, seen: seq<int>)
    requires i <= |ns|
  {
    forall k :: 0 <= k < i ==> ns[k] in seen
  }

  /** A neighbour already enqueued extends the covered prefix. */
  lemma CoveredNext(ns: seq<int>, i: nat, seen: seq<int>)
    requires i < |ns| && Covered(ns, i, seen) && ns[i] in seen
    ensures Covered(ns, i + 1, seen)
  { }

  /** Enqueueing the next neighbour extends the covered prefix. */
  lemma CoveredSnoc(ns: seq<int>, i: nat, seen: seq<int>)
    requires i < |ns| && Covered(ns, i, seen)
    ensures Covered(ns, i + 1, seen + [ns[i]])
  { }

  /**
   * Once every neighbour of the vertex being processed, `seen[n]`, is enqueued, it counts
   * as processed, and the next vertex of the queue, if any, becomes the one processed.
   */
  lemma DoneWith(adj: seq<seq<int>>, vertex: nat, start: int, end: int, seen: seq<int>, n: nat, h: nat,
                 u: int, vis: seq<bool>, dist: seq<int>, prev: seq<int>)
    requires GraphOk(adj, vertex) && Search(adj, vertex, start, end, seen, n, vis, dist, prev)
    requires h == n + 1 <= |seen| && u == seen[n] && Complete(adj, start, seen, n, dist[u])
    requires Within(seen, n, dist, dist[u] + 1)
    requires Covered(adj[u], |adj[u]|, seen)
    ensures Frontier(adj, vertex, start, end, seen, h, vis, dist, prev)
    ensures Tree(adj, vertex, start, seen, dist, prev) && Untouched(vertex, seen, dist, prev)
  {
    assert Processed(adj, seen, h);
    if h < |seen| {
      assert dist[u] <= dist[seen[h]];
      NextLevel(adj, start, seen, n, dist, dist[seen[h]]);
      forall j | h < j < |seen|
        ensures dist[seen[j]] <= dist[seen[h]] + 1
      {
        assert dist[seen[j]] <= dist[u] + 1;
      }
    }
  }

  /** With only `start` enqueued, at distance 0, and every other vertex untouched, the invariant holds. */
  lemma Begin(adj: seq<seq<int>>, vertex: nat, start: int, end: int, vis: seq<bool>, dist: seq<int>, prev: seq<int>)
    requires GraphOk(adj, vertex) && 0 <= start < vertex
    requires |vis| == vertex && |dist| == vertex && |prev| == vertex
    requires forall v :: 0 <= v < vertex ==> (vis[v] <==> v == start)
    requires dist[start] == 0 && prev[start] == -1
    requires forall v :: 0 <= v < vertex && v != start ==> dist[v] == 10000 && prev[v] == -1
    ensures Frontier(adj, vertex, start, end, [start], 0, vis, dist, prev)
  {
    assert Hops(adj, start, dist[start], start);
    assert Exact(adj, start, [start], dist) by {
      assert [start][..0] == [];
    }
  }

  /** When the queue empties, every vertex reachable from `start` has been enqueued, so `end` is `start` or unreachable. */
  lemma EmptyQueue(adj: seq<seq<int>>, vertex: nat, start: int, end: int, seen: seq<int>,
                   vis: seq<bool>, dist: seq<int>, prev: seq<int>)
    requires Search(adj, vertex, start, end, seen, |seen|, vis, dist, prev)
    ensures end == start || !Reachable(adj, start, end)
    ensures end in seen ==> end == start
  {
    forall x | x in seen
      ensures 0 <= x < |adj| && forall i :: 0 <= i < |adj[x]| ==> adj[x][i] in seen
    {
      var j :| 0 <= j < |seen| && seen[j] == x;
    }
    if end != start && Reachable(adj, start, end) {
      var k :| ReachIn(adj, start, k, end);
      ClosedHoldsReach(adj, start, seen, k, end);
      assert false;
    }
  }

  /** The three writes that record `v` as reached from `u`. */
  method Visit(visited: array<bool>, distance: array<int>, previous: array<int>, u: int, v: int)
    requires 0 <= u < distance.Length && 0 <= v < visited.Length && v < distance.Length && v < previous.Length
    requires distance != previous
    modifies visited, distance, previous
    ensures visited[..] == old(visited[..])[v := true]
    ensures distance[..] == old(distance[..])[v := old(distance[u]) + 1]
    ensures previous[..] == old(previous[..])[v := u]
  {
    visited[v] := true;
    distance[v] := distance[u] + 1;
    previous[v] := u;
  }

  /**
   * The inner loop of `breath_first_search`: every unvisited neighbour of `u`, the vertex
   * just taken from the queue, is visited, given a distance and a predecessor and
   * enqueued; the scan stops early when it enqueues `end`. `enqueued` is the ghost
   * record of every vertex ever enqueued, of which `queue` is the part not yet taken.
   */
  method ScanNeighbours(adj: seq<seq<int>>, vertex: nat, start: int, end: int, u: int,
                        visited: array<bool>, distance: array<int>, previous: array<int>,
                        queue: seq<int>, ghost enqueued: seq<int>, ghost n: nat)
    returns (found: bool, queue': seq<int>, ghost enqueued': seq<int>)
    requires GraphOk(adj, vertex) && visited.Length == vertex
    requires previous.Length == vertex && distance.Length == vertex && previous != distance
    requires n < |enqueued| && u == enqueued[n] && queue == enqueued[n + 1..]
    requires Frontier(adj, vertex, start, end, enqueued, n, visited[..], distance[..], previous[..])
    modifies visited, distance, previous
    ensures Tree(adj, vertex, start, enqueued', distance[..], previous[..])
    ensures Untouched(vertex, enqueued', distance[..], previous[..])
    ensures found ==> Hit(adj, start, end, enqueued', distance[..])
    ensures !found ==> n + 1 <= |enqueued'| && queue' == enqueued'[n + 1..]
    ensures !found ==> Frontier(adj, vertex, start, end, enqueued', n + 1, visited[..], distance[..], previous[..])
    ensures Unvisited(visited[..]) <= Unvisited(old(visited[..]))
    ensures Unvisited(visited[..]) + |queue'| == Unvisited(old(visited[..])) + |queue|
  {
    queue', enqueued' := queue, enqueued;
    ghost var h := n + 1;
    ghost var before := Unvisited(visited[..]);
    for i := 0 to |adj[u]|
      invariant h <= |enqueued'| && queue' == enqueued'[h..] && u == enqueued'[n]
      invariant Search(adj, vertex, start, end, enqueued', n, visited[..], distance[..], previous[..])
      invariant Complete(adj, start, enqueued', n, distance[..][u])
      invariant Within(enqueued', n, distance[..], distance[..][u] + 1)
      invariant i <= |adj[u]| && Covered(adj[u], i, enqueued')
      invariant Unvisited(visited[..]) <= before && Unvisited(visited[..]) + |queue'| == before + |queue|
    {
      var v := adj[u][i];
      assert 0 <= v < vertex;
      if !visited[v] {
        ghost var seen, vis, dist, prev := enqueued', visited[..], distance[..], previous[..];
        Visit(visited, distance, previous, u, v);
        SuffixSnoc(enqueued', h, v);
        queue' := queue' + [v];
        enqueued' := enqueued' + [v];
        Discover(adj, vertex, start, end, seen, n, vis, dist, prev, u, v,
                 enqueued', visited[..], distance[..], previous[..]);
        CoveredSnoc(adj[u], i, seen);
        if v == end {
          return true, queue', enqueued';
        }
      } else {
        assert visited[..][v];
        CoveredNext(adj[u], i, enqueued');
      }
    }
    DoneWith(adj, vertex, start, end, enqueued', n, h, u, visited[..], distance[..], previous[..]);
    found := false;
  }

  /**
   * `breath_first_search`: `found` is whether `end` differs from `start` and can be
   * reached from it, and then `distance[end]` is the fewest hops that reach it. Every
   * vertex is enqueued at most once; `enqueued` is the order, and `previous` and
   * `distance` hold the search tree over it.
   */
  method BreadthFirstSearch(adj: seq<seq<int>>, start: int, end: int, vertex: nat, previous: array<int>, distance: array<int>)
    returns (found: bool, ghost enqueued: seq<int>)
    requires GraphOk(adj, vertex) && 0 <= start < vertex
    requires previous.Length == vertex && distance.Length == vertex && previous != distance
    modifies previous, distance
    ensures found <==> end != start && Reachable(adj, start, end)
    ensures found ==> (0 <= end < vertex && end in enqueued
      && ReachIn(adj, start, distance[end], end) && !ReachIn(adj, start, distance[end] - 1, end))
    ensures Tree(adj, vertex, start, enqueued, distance[..], previous[..])
    ensures Untouched(vertex, enqueued, distance[..], previous[..])
    ensures !found && end != start ==> end !in enqueued
  {
    var queue: seq<int> := [];
    for i := 0 to vertex
      invariant forall v :: 0 <= v < i ==> distance[v] == 10000 && previous[v] == -1
    {
      distance[i] := 10000;
      previous[i] := -1;
    }
    var visited := new bool[vertex](_ => false);
    visited[start] := true;
    distance[start] := 0;
    queue := queue + [start];
    enqueued := [start];
    ghost var h := 0;
    Begin(adj, vertex, start, end, visited[..], distance[..], previous[..]);
    while |queue| != 0
      invariant 0 <= h <= |enqueued| && queue == enqueued[h..]
      invariant Frontier(adj, vertex, start, end, enqueued, h, visited[..], distance[..], previous[..])
      decreases Unvisited(visited[..]), |queue|
    {
      var u := queue[0];
      SuffixCons(enqueued, h);
      ghost var unvisited, waiting := Unvisited(visited[..]), |queue| - 1;
      found, queue, enqueued := ScanNeighbours(adj, vertex, start, end, u, visited, distance, previous,
                                               queue[1..], enqueued, h);
      if found {
        HitReachable(adj, start, end, enqueued, distance[..]);
        return;
      }
      assert Unvisited(visited[..]) + |queue| == unvisited + waiting;
      assert Unvisited(visited[..]) < unvisited || (Unvisited(visited[..]) == unvisited && |queue| <= waiting);
      h := h + 1;
    }
    found := false;
    EmptyQueue(adj, vertex, start, end, enqueued, visited[..], distance[..], previous[..]);
  }

  /**
   * The walk back along `previous` from `end` and the printing of the path in reverse,
   * which the two `print_path` versions share: when `end` was enqueued the route printed
   * runs from `start` to `end` in `distance[end]` hops; otherwise it is `end` alone.
   */
  method TracePath(adj: seq<seq<int>>, vertex: nat, start: int, end: int,
                   previous: array<int>, distance: array<int>, ghost enqueued: seq<int>)
    returns (route: seq<int>)
    requires previous.Length == vertex && distance.Length == vertex && 0 <= end < vertex
    requires Tree(adj, vertex, start, enqueued, distance[..], previous[..])
    requires Untouched(vertex, enqueued, distance[..], previous[..])
    ensures end in enqueued ==> IsRoute(adj, start, end, route) && |route| == distance[end] + 1
    ensures end !in enqueued ==> route == [end]
  {
    var path := [end];
    var crawl := end;
    ghost var at := if end in enqueued then Position(enqueued, end) else 0;
    while previous[crawl] != -1
      invariant 0 <= crawl < vertex && |path| >= 1 && path[0] == end && path[|path| - 1] == crawl
      invariant end !in enqueued ==> path == [end] && previous[end] == -1
      invariant end in enqueued ==> 0 <= at < |enqueued| && enqueued[at] == crawl
      invariant end in enqueued ==> distance[crawl] == distance[end] - (|path| - 1)
      invariant BackRoute(adj, path)
      decreases at
    {
      assert end in enqueued;
      assert previous[..][enqueued[at]] in enqueued[..at];
      var next := previous[crawl];
      at := Position(enqueued[..at], next);
      path := path + [next];
      crawl := next;
    }
    route := PrintReversed(path);
  }

  /** The loop that prints `path` from its last element to its first. */
  method PrintReversed(path: seq<int>) returns (route: seq<int>)
    ensures |route| == |path| && forall k :: 0 <= k < |path| ==> route[k] == path[|path| - 1 - k]
  {
    route := [];
    for i := 0 to |path|
      invariant |route| == i && forall k :: 0 <= k < i ==> route[k] == path[|path| - 1 - k]
    {
      route := route + [path[|path| - 1 - i]];
    }
  }

  /** Each element of `path` after the first is a vertex of which the one before is a neighbour. */
  predicate BackRoute(adj: seq<seq<int>>, path: seq<int>) {
    forall k :: 0 < k < |path| ==> 0 <= path[k] < |adj| && path[k - 1] in adj[path[k]]
  }

  /** The index of an element of a sequence. */
  function Position(s: seq<int>, x: int): (i: nat)
    requires x in s
    ensures i < |s| && s[i] == x
  {
    if s[0] == x then 0 else 1 + Position(s[1..], x)
  }

  /**
   * `print_path` of src/path_finding/graph.py: on fresh `previous` and `distance` lists,
   * the search runs; when it finds `end`, the route printed runs from `start` to `end` in
   * `hops` hops, the fewest that reach `end`. When it does not, only the message is
   * printed: `route` is empty and `hops` 0.
   */
  method PrintPath(adj: seq<seq<int>>, start: int, end: int, vertex: nat) returns (found: bool, hops: int, route: seq<int>)
    requires GraphOk(adj, vertex) && 0 <= start < vertex
    ensures found <==> end != start && Reachable(adj, start, end)
    ensures found ==> IsRoute(adj, start, end, route) && |route| == hops + 1 && !ReachIn(adj, start, hops - 1, end)
    ensures !found ==> route == [] && hops == 0
  {
    var previous := new int[vertex](_ => 0);
    var distance := new int[vertex](_ => 0);
    ghost var enqueued: seq<int>;
    found, enqueued := BreadthFirstSearch(adj, start, end, vertex, previous, distance);
    if !found {
      return false, 0, [];
    }
    route := TracePath(adj, vertex, start, end, previous, distance, enqueued);
    hops := distance[end];
  }

  /**
   * `print_path` of Path_Finding/Graph.py, which walks back from `end` whether or not the
   * search found it: on success as above; on failure the route is `end` alone and `hops`
   * is `distance[end]`, 0 when `end` is `start` and 10000 otherwise.
   */
  method PrintPathAlways(adj: seq<seq<int>>, start: int, end: int, vertex: nat) returns (found: bool, hops: int, route: seq<int>)
    requires GraphOk(adj, vertex) && 0 <= start < vertex && 0 <= end < vertex
    ensures found <==> end != start && Reachable(adj, start, end)
    ensures found ==> IsRoute(adj, start, end, route) && |route| == hops + 1 && !ReachIn(adj, start, hops - 1, end)
    ensures !found ==> route == [end] && hops == (if end == start then 0 else 10000)
  {
    var previous := new int[vertex](_ => 0);
    var distance := new int[vertex](_ => 0);
    ghost var enqueued: seq<int>;
    found, enqueued := BreadthFirstSearch(adj, start, end, vertex, previous, distance);
    route := TracePath(adj, vertex, start, end, previous, distance, enqueued);
    hops := distance[end];
    if !found && end == start {
      assert enqueued[0] == end;
    }
  }
}
