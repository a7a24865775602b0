/**
 * The localisation pipeline of the heuristic-training notebook
 * (app/data/heuristic_training.py): every triple of matched networks is solved, the
 * resulting point cloud is thinned by repeated 2-σ outlier rejection, the survivors'
 * centroid is the estimate, and `err_controller` averages the estimates' errors.
 *
 * The spherical solver (`trilaterate` over n-vectors, with `rssi_to_distance` and the
 * chosen `A` and `n`) is the parameter `solve`: `None` stands for an exception it raises.
 * `sqrt` stands for `math.sqrt`.
 */
module HeuristicTraining {
  import opened Wrappers
  import opened Dicts
  import opened HeuristicMatching

  /** A `[lat, lon]` pair as the notebook's lists hold it. */
  type Point = (real, real)

  /** `do_trilaterate`: the solver's point, or the sentinel `[-1, -1]` when it raises. */
  function DoTrilaterate(n1: Network, n2: Network, n3: Network, solve: (Network, Network, Network) -> Option<Point>): (p: Point)
    ensures solve(n1, n2, n3).None? ==> p == (-1.0, -1.0)
    ensures solve(n1, n2, n3).Some? ==> p == solve(n1, n2, n3).value
  {
    match solve(n1, n2, n3)
    case None => (-1.0, -1.0)
    case Some(p) => p
  }

  // ---------------------------------------------------------------------------------
  // The triple loops of `iterate_all`

  /** Indices `(i, j, k)` into the network list. */
  datatype Triple = Triple(i: nat, j: nat, k: nat)

  /** Lexicographic order on triples. */
  predicate Lt(a: Triple, b: Triple) {
    a.i < b.i || (a.i == b.i && (a.j < b.j || (a.j == b.j && a.k < b.k)))
  }

  /** Strictly increasing in lexicographic order; in particular no triple occurs twice. */
  predicate Increasing(ts: seq<Triple>) {
    forall p, q :: 0 <= p < q < |ts| ==> Lt(ts[p], ts[q])
  }

  lemma IncreasingConcat(a: seq<Triple>, b: seq<Triple>)
    requires Increasing(a) && Increasing(b)
    requires forall x, y :: x in a && y in b ==> Lt(x, y)
    ensures Increasing(a + b)
  {
    var ab := a + b;
    forall p, q | 0 <= p < q < |ab| ensures Lt(ab[p], ab[q]) {
      if q < |a| {
        assert ab[p] == a[p] && ab[q] == a[q];
      } else if p < |a| {
        assert ab[p] in a && ab[q] in b;
      } else {
        assert ab[p] == b[p - |a|] && ab[q] == b[q - |a|];
      }
    }
  }

  /** Every triple is an index triple below `n`. */
  predicate Within(ts: seq<Triple>, n: nat)
    decreases |ts|
  {
    |ts| == 0 || (Within(ts[..|ts| - 1], n) && Valid(ts[|ts| - 1], n))
  }

  /**
   * The triples the loops have solved when they reach `(i, j, k)`: the same `i` and `j`
   * with a smaller `k`, then every `k` of a smaller `j`, then every triple of a smaller `i`.
   */
  function Done(i: nat, j: nat, k: nat, n: nat): (ts: seq<Triple>)
    requires i < j < k <= n
    ensures Within(ts, n)
    decreases i, j, k
  {
    if k > j + 1 then
      var prev := Done(i, j, k - 1, n);
      assert (prev + [Triple(i, j, k - 1)])[..|prev|] == prev;
      prev + [Triple(i, j, k - 1)]
    else if j > i + 1 then Done(i, j - 1, n, n)
    else if i > 0 then Done(i - 1, n - 1, n, n)
    else []
  }

  /** An index triple below `n`. */
  predicate Valid(t: Triple, n: nat) {
    t.i < t.j < t.k < n
  }

  /** `t` is an index triple below `n` that comes before `(i, j, k)`. */
  predicate Before(t: Triple, i: nat, j: nat, k: nat, n: nat) {
    Valid(t, n) && Lt(t, Triple(i, j, k))
  }

  /**
   * The triples solved before `(i, j, k)` are exactly the index triples below `n` that
   * come before it in lexicographic order, each once, in that order.
   */
  lemma {:induction false} DoneFacts(i: nat, j: nat, k: nat, n: nat)
    requires i < j < k <= n
    ensures Increasing(Done(i, j, k, n))
    ensures forall t :: t in Done(i, j, k, n) <==> Before(t, i, j, k, n)
    decreases i, j, k
  {
    if k > j + 1 {
      var prev := Done(i, j, k - 1, n);
      var last := Triple(i, j, k - 1);
      DoneFacts(i, j, k - 1, n);
      assert Done(i, j, k, n) == prev + [last];
      forall t ensures t in prev + [last] <==> Before(t, i, j, k, n) {
        assert t in prev + [last] <==> t in prev || t == last;
      }
      forall x, y | x in prev && y in [last] ensures Lt(x, y) {
        assert Before(x, i, j, k - 1, n);
      }
      IncreasingConcat(prev, [last]);
    } else if j > i + 1 {
      DoneFacts(i, j - 1, n, n);
      assert Done(i, j, k, n) == Done(i, j - 1, n, n);
      forall t ensures Before(t, i, j - 1, n, n) <==> Before(t, i, j, k, n) {
      }
    } else if i > 0 {
      DoneFacts(i - 1, n - 1, n, n);
      assert Done(i, j, k, n) == Done(i - 1, n - 1, n, n);
      forall t ensures Before(t, i - 1, n - 1, n, n) <==> Before(t, i, j, k, n) {
      }
    } else {
      forall t ensures !Before(t, i, j, k, n) {
      }
    }
  }

  /**
   * The triples `iterate_all` solves, in the order it solves them (none when `n < 3`):
   * those solved before the loops would reach `(n - 2, n - 1, n)`.
   */
  function Triples(n: nat): (ts: seq<Triple>)
    ensures Within(ts, n)
  {
    if n < 3 then [] else Done(n - 2, n - 1, n, n)
  }

  /**
   * `iterate_all` solves every index triple `i < j < k < n` exactly once, in lexicographic
   * order, and nothing else.
   */
  lemma TriplesExactlyOnce(n: nat)
    ensures forall t :: t in Triples(n) <==> Valid(t, n)
    ensures Increasing(Triples(n))
    ensures forall p, q :: 0 <= p < q < |Triples(n)| ==> Triples(n)[p] != Triples(n)[q]
  {
    if n >= 3 {
      DoneFacts(n - 2, n - 1, n, n);
      forall t ensures Before(t, n - 2, n - 1, n, n) <==> Valid(t, n) {
      }
    }
    var ts := Triples(n);
    forall p, q | 0 <= p < q < |ts| ensures ts[p] != ts[q] {
      assert Lt(ts[p], ts[q]);
    }
  }

  function Attempt(t: Triple, networks: seq<Network>, solve: (Network, Network, Network) -> Option<Point>): Point
    requires t.i < |networks| && t.j < |networks| && t.k < |networks|
  {
    DoTrilaterate(networks[t.i], networks[t.j], networks[t.k], solve)
  }

  /** The points kept from the given triples: those whose latitude is not the sentinel -1. */
  function Solved(ts: seq<Triple>, networks: seq<Network>, solve: (Network, Network, Network) -> Option<Point>): (ps: seq<Point>)
    requires Within(ts, |networks|)
    ensures |ps| <= |ts|
    decreases |ts|
  {
    if |ts| == 0 then []
    else
      var t := ts[|ts| - 1];
      var p := Attempt(t, networks, solve);
      Solved(ts[..|ts| - 1], networks, solve) + if p.0 != -1.0 then [p] else []
  }

  /** Each kept point is the result of solving one of the triples, and each such result is kept unless it is the sentinel. */
  lemma {:induction false} SolvedMembers(ts: seq<Triple>, networks: seq<Network>, solve: (Network, Network, Network) -> Option<Point>, p: Point)
    requires Within(ts, |networks|)
    ensures p in Solved(ts, networks, solve) <==>
      p.0 != -1.0 && exists t :: t in ts && Valid(t, |networks|) && Attempt(t, networks, solve) == p
    decreases |ts|
  {
    if |ts| > 0 {
      var init := ts[..|ts| - 1];
      var t := ts[|ts| - 1];
      assert ts == init + [t];
      SolvedMembers(init, networks, solve, p);
      if exists u :: u in ts && Valid(u, |networks|) && Attempt(u, networks, solve) == p {
        var u :| u in ts && Valid(u, |networks|) && Attempt(u, networks, solve) == p;
        if u != t {
          assert u in init;
        }
      }
    }
  }

  /** Solving one more triple appends its point unless it is the sentinel. */
  lemma SolvedSnoc(ts: seq<Triple>, t: Triple, networks: seq<Network>, solve: (Network, Network, Network) -> Option<Point>)
    requires Within(ts, |networks|) && Valid(t, |networks|)
    ensures Within(ts + [t], |networks|)
    ensures var p := Attempt(t, networks, solve);
      Solved(ts + [t], networks, solve) == Solved(ts, networks, solve) + if p.0 != -1.0 then [p] else []
  {
    assert (ts + [t])[..|ts|] == ts;
    assert (ts + [t])[|ts|] == t;
  }

  /**
   * The points the triple loops have collected when they reach `(i, j, k)`, built the
   * way the loops build them: one solved triple at a time.
   */
  function Collected(i: nat, j: nat, k: nat, networks: seq<Network>, solve: (Network, Network, Network) -> Option<Point>): seq<Point>
    requires i < j < k <= |networks|
    decreases i, j, k
  {
    var n := |networks|;
    if k > j + 1 then
      var p := DoTrilaterate(networks[i], networks[j], networks[k - 1], solve);
      Collected(i, j, k - 1, networks, solve) + if p.0 != -1.0 then [p] else []
    else if j > i + 1 then Collected(i, j - 1, n, networks, solve)
    else if i > 0 then Collected(i - 1, n - 1, n, networks, solve)
    else []
  }

  /** Solving triple `(i, j, k - 1)` extends the points of the triples before it. */
  lemma SolvedNext(i: nat, j: nat, k: nat, networks: seq<Network>, solve: (Network, Network, Network) -> Option<Point>)
    requires i < j && j + 1 < k <= |networks|
    ensures var p := DoTrilaterate(networks[i], networks[j], networks[k - 1], solve);
      Solved(Done(i, j, k, |networks|), networks, solve) ==
      Solved(Done(i, j, k - 1, |networks|), networks, solve) + if p.0 != -1.0 then [p] else []
  {
    var n := |networks|;
    var t := Triple(i, j, k - 1);
    DoneSnoc(i, j, k, n);
    SolvedSnoc(Done(i, j, k - 1, n), t, networks, solve);
    assert Attempt(t, networks, solve) == DoTrilaterate(networks[i], networks[j], networks[k - 1], solve);
  }

  /** While `k` can still step back, the triples before `(i, j, k)` end with `(i, j, k - 1)`. */
  lemma DoneSnoc(i: nat, j: nat, k: nat, n: nat)
    requires i < j && j + 1 < k <= n
    ensures Done(i, j, k, n) == Done(i, j, k - 1, n) + [Triple(i, j, k - 1)]
  {
  }

  /** What the loops have collected is the solved points of the triples before `(i, j, k)`. */
  lemma CollectedIsSolved(i: nat, j: nat, k: nat, networks: seq<Network>, solve: (Network, Network, Network) -> Option<Point>)
    requires i < j < k <= |networks|
    ensures Collected(i, j, k, networks, solve) == Solved(Done(i, j, k, |networks|), networks, solve)
    decreases i, j, k, 1
  {
    if k > j + 1 {
      CollectedNextK(i, j, k, networks, solve);
    } else if j > i + 1 {
      CollectedNextJ(i, j, networks, solve);
    } else if i > 0 {
      CollectedNextI(i, networks, solve);
    }
  }

  lemma CollectedNextK(i: nat, j: nat, k: nat, networks: seq<Network>, solve: (Network, Network, Network) -> Option<Point>)
    requires i < j && j + 1 < k <= |networks|
    ensures Collected(i, j, k, networks, solve) == Solved(Done(i, j, k, |networks|), networks, solve)
    decreases i, j, k, 0
  {
    CollectedIsSolved(i, j, k - 1, networks, solve);
    SolvedNext(i, j, k, networks, solve);
  }

  lemma CollectedNextJ(i: nat, j: nat, networks: seq<Network>, solve: (Network, Network, Network) -> Option<Point>)
    requires i + 1 < j < |networks|
    ensures Collected(i, j, j + 1, networks, solve) == Solved(Done(i, j, j + 1, |networks|), networks, solve)
    decreases i, j, j + 1, 0
  {
    var n := |networks|;
    CollectedIsSolved(i, j - 1, n, networks, solve);
    assert Collected(i, j, j + 1, networks, solve) == Collected(i, j - 1, n, networks, solve);
    assert Done(i, j, j + 1, n) == Done(i, j - 1, n, n);
  }

  lemma CollectedNextI(i: nat, networks: seq<Network>, solve: (Network, Network, Network) -> Option<Point>)
    requires 0 < i && i + 2 <= |networks|
    ensures Collected(i, i + 1, i + 2, networks, solve) == Solved(Done(i, i + 1, i + 2, |networks|), networks, solve)
    decreases i, i + 1, i + 2, 0
  {
    var n := |networks|;
    CollectedIsSolved(i - 1, n - 1, n, networks, solve);
    assert Collected(i, i + 1, i + 2, networks, solve) == Collected(i - 1, n - 1, n, networks, solve);
    assert Done(i, i + 1, i + 2, n) == Done(i - 1, n - 1, n, n);
  }

  /** The candidate cloud of a network list: the solved points of every triple. */
  function Cloud(networks: seq<Network>, solve: (Network, Network, Network) -> Option<Point>): seq<Point> {
    Solved(Triples(|networks|), networks, solve)
  }

  /** The triple loops of `iterate_all`: the candidate cloud. */
  method Candidates(networks: seq<Network>, solve: (Network, Network, Network) -> Option<Point>) returns (allPoints: seq<Point>)
    ensures allPoints == Cloud(networks, solve)
  {
    var n := |networks|;
    allPoints := [];
    var i := 0;
    while i < n - 2
      invariant n < 3 ==> i == 0 && allPoints == []
      invariant n >= 3 ==> i <= n - 2 && allPoints == Collected(i, i + 1, i + 2, networks, solve)
    {
      var j := i + 1;
      while j < n - 1
        invariant i + 1 <= j <= n - 1
        invariant allPoints == Collected(i, j, j + 1, networks, solve)
      {
        var k := j + 1;
        while k < n
          invariant j + 1 <= k <= n
          invariant allPoints == Collected(i, j, k, networks, solve)
        {
          var data := DoTrilaterate(networks[i], networks[j], networks[k], solve);
          if data.0 != -1.0 {
            allPoints := allPoints + [data];
          }
          k := k + 1;
        }
        j := j + 1;
      }
      i := i + 1;
    }
    if n >= 3 {
      CollectedIsSolved(n - 2, n - 1, n, networks, solve);
    }
  }

  // ---------------------------------------------------------------------------------
  // `distance`, `get_stats` and the rejection loop

  function SqDist(p: Point, q: Point): (d: real)
    ensures d >= 0.0
  {
    (p.0 - q.0) * (p.0 - q.0) + (p.1 - q.1) * (p.1 - q.1)
  }

  /** `distance`: the Euclidean distance of two points. */
  function Distance(p: Point, q: Point, sqrt: real -> real): real {
    sqrt(SqDist(p, q))
  }

  /** `[sum(i) for i in zip(*data)]`. */
  function SumPoints(ps: seq<Point>): Point
    decreases |ps|
  {
    if |ps| == 0 then (0.0, 0.0)
    else var s := SumPoints(ps[..|ps| - 1]); (s.0 + ps[|ps| - 1].0, s.1 + ps[|ps| - 1].1)
  }

  /** The mean of a non-empty cloud. */
  function Centroid(ps: seq<Point>): Point
    requires |ps| > 0
  {
    var s := SumPoints(ps);
    var n := |ps| as real;
    (s.0 / n, s.1 / n)
  }

  /** `sum([distance(point, avg) ** 2 for point in data])`. */
  function SumSqErr(ps: seq<Point>, avg: Point, sqrt: real -> real): real
    decreases |ps|
  {
    if |ps| == 0 then 0.0
    else var d := Distance(ps[|ps| - 1], avg, sqrt); SumSqErr(ps[..|ps| - 1], avg, sqrt) + d * d
  }

  /** `get_stats`: the centroid and the standard deviation of the distances to it. */
  function GetStats(ps: seq<Point>, sqrt: real -> real): (Point, real)
    requires |ps| > 0
  {
    var avg := Centroid(ps);
    var variance := SumSqErr(ps, avg, sqrt) / (|ps| as real);
    (avg, sqrt(variance))
  }

  /** `[point for point in ps if distance(avg, point) < bound]`. */
  function Keep(ps: seq<Point>, avg: Point, bound: real, sqrt: real -> real): (r: seq<Point>)
    ensures |r| <= |ps|
    ensures |r| == |ps| ==> r == ps
    decreases |ps|
  {
    if |ps| == 0 then []
    else
      var p := ps[|ps| - 1];
      var prev := Keep(ps[..|ps| - 1], avg, bound, sqrt);
      assert ps == ps[..|ps| - 1] + [p];
      prev + if Distance(avg, p, sqrt) < bound then [p] else []
  }

  /** The list comprehension keeps exactly the points strictly within `bound` of `avg`. */
  lemma {:induction false} KeepMembers(ps: seq<Point>, avg: Point, bound: real, sqrt: real -> real, p: Point)
    ensures p in Keep(ps, avg, bound, sqrt) <==> p in ps && Distance(avg, p, sqrt) < bound
    decreases |ps|
  {
    if |ps| > 0 {
      var init := ps[..|ps| - 1];
      assert ps == init + [ps[|ps| - 1]];
      KeepMembers(init, avg, bound, sqrt, p);
    }
  }

  /** One rejection pass: the points strictly closer to the centroid than two standard deviations. */
  function Pass(ps: seq<Point>, sqrt: real -> real): seq<Point>
    requires |ps| > 0
  {
    var stats := GetStats(ps, sqrt);
    Keep(ps, stats.0, 2.0 * stats.1, sqrt)
  }

  /**
   * The cloud the rejection loop ends with: passes are applied while they remove some but
   * not all points. The result is never empty, is drawn from the input, and is stable: a
   * further pass would remove either nothing or everything.
   */
  function Reject(ps: seq<Point>, sqrt: real -> real): (r: seq<Point>)
    requires |ps| > 0
    ensures 0 < |r| <= |ps|
    ensures |Pass(r, sqrt)| == 0 || Pass(r, sqrt) == r
    decreases |ps|
  {
    var next := Pass(ps, sqrt);
    if |next| == 0 then ps
    else if |next| == |ps| then next
    else Reject(next, sqrt)
  }

  /** Every point the rejection loop keeps was in its input. */
  lemma {:induction false} RejectDrawnFrom(ps: seq<Point>, sqrt: real -> real, p: Point)
    requires |ps| > 0 && p in Reject(ps, sqrt)
    ensures p in ps
    decreases |ps|
  {
    var next := Pass(ps, sqrt);
    RejectStep(ps, sqrt);
    if 0 < |next| < |ps| {
      RejectDrawnFrom(next, sqrt, p);
      PassMembers(ps, sqrt, p);
    }
  }

  lemma PassMembers(ps: seq<Point>, sqrt: real -> real, p: Point)
    requires |ps| > 0
    ensures p in Pass(ps, sqrt) ==> p in ps
  {
    var stats := GetStats(ps, sqrt);
    KeepMembers(ps, stats.0, 2.0 * stats.1, sqrt, p);
  }

  lemma PassIs(ps: seq<Point>, sqrt: real -> real, avg: Point, sd: real)
    requires |ps| > 0 && GetStats(ps, sqrt) == (avg, sd)
    ensures Pass(ps, sqrt) == Keep(ps, avg, 2.0 * sd, sqrt)
  {
  }

  /** One turn of the rejection loop, case by case. */
  lemma RejectStep(ps: seq<Point>, sqrt: real -> real)
    requires |ps| > 0
    ensures |Pass(ps, sqrt)| == 0 ==> Reject(ps, sqrt) == ps
    ensures |Pass(ps, sqrt)| == |ps| ==> Pass(ps, sqrt) == ps && Reject(ps, sqrt) == ps
    ensures 0 < |Pass(ps, sqrt)| < |ps| ==> Reject(ps, sqrt) == Reject(Pass(ps, sqrt), sqrt)
  {
  }

  /** One turn of the rejection loop, stated on the list the turn computes. */
  lemma Turn(ps: seq<Point>, sqrt: real -> real, avg: Point, sd: real, next: seq<Point>)
    requires |ps| > 0 && GetStats(ps, sqrt) == (avg, sd) && next == Keep(ps, avg, 2.0 * sd, sqrt)
    ensures |next| == 0 ==> Reject(ps, sqrt) == ps
    ensures |next| == |ps| ==> next == ps && Reject(ps, sqrt) == ps
    ensures 0 < |next| < |ps| ==> Reject(ps, sqrt) == Reject(next, sqrt)
  {
    PassIs(ps, sqrt, avg, sd);
    RejectStep(ps, sqrt);
  }

  /** `math.sqrt` on the non-negative reals. */
  ghost predicate IsSqrt(sqrt: real -> real) {
    forall x :: x >= 0.0 ==> sqrt(x) >= 0.0 && sqrt(x) * sqrt(x) == x
  }

  /** For a true square root, "closer than two standard deviations" is "squared distance below four variances". */
  lemma WithinTwoSd(avg: Point, p: Point, variance: real, sqrt: real -> real)
    requires IsSqrt(sqrt) && variance >= 0.0
    ensures Distance(avg, p, sqrt) < 2.0 * sqrt(variance) <==> SqDist(avg, p) < 4.0 * variance
  {
    var a := sqrt(SqDist(avg, p));
    var b := sqrt(variance);
    assert a >= 0.0 && a * a == SqDist(avg, p);
    assert b >= 0.0 && b * b == variance;
    var c := 2.0 * b;
    assert c * c == 4.0 * variance;
    if a < c {
      SquareBelow(a, c);
    } else {
      SquareBelow(c, a);
      assert c * c <= a * a;
    }
  }

  /** Squaring is strictly monotone on the non-negative reals. */
  lemma SquareBelow(x: real, y: real)
    requires 0.0 <= x <= y
    ensures x * x <= y * y
    ensures x < y ==> x * x < y * y
  {
    assert y * y - x * x == (y - x) * (y + x);
    if x < y {
      ProductPositive(y - x, y + x);
    }
  }

  lemma ProductPositive(d: real, e: real)
    requires d > 0.0 && e > 0.0
    ensures d * e > 0.0
  {
  }

  /** For a true square root, the variance `get_stats` computes is the mean squared distance to the centroid. */
  lemma {:induction false} SumSqErrExact(ps: seq<Point>, avg: Point, sqrt: real -> real)
    requires IsSqrt(sqrt)
    ensures SumSqErr(ps, avg, sqrt) == SumSqDist(ps, avg)
    decreases |ps|
  {
    if |ps| > 0 {
      SumSqErrExact(ps[..|ps| - 1], avg, sqrt);
      assert SqDist(ps[|ps| - 1], avg) >= 0.0;
    }
  }

  function SumSqDist(ps: seq<Point>, avg: Point): (s: real)
    ensures s >= 0.0
    decreases |ps|
  {
    if |ps| == 0 then 0.0 else SumSqDist(ps[..|ps| - 1], avg) + SqDist(ps[|ps| - 1], avg)
  }

  /** The mean squared distance of a non-empty cloud to its centroid. */
  function MeanSqDist(ps: seq<Point>): (v: real)
    requires |ps| > 0
    ensures v >= 0.0
  {
    var total := SumSqDist(ps, Centroid(ps));
    QuotientNonNegative(total, |ps| as real);
    total / (|ps| as real)
  }

  lemma QuotientNonNegative(x: real, y: real)
    requires x >= 0.0 && y > 0.0
    ensures x / y >= 0.0
  {
  }

  /**
   * With a true square root, a pass keeps exactly the points whose squared distance to the
   * centroid is below four times the mean squared distance.
   */
  lemma PassSquared(ps: seq<Point>, sqrt: real -> real, p: Point)
    requires IsSqrt(sqrt) && |ps| > 0
    ensures p in Pass(ps, sqrt) <==> p in ps && SqDist(Centroid(ps), p) < 4.0 * MeanSqDist(ps)
  {
    var avg := Centroid(ps);
    SumSqErrExact(ps, avg, sqrt);
    var variance := MeanSqDist(ps);
    assert GetStats(ps, sqrt) == (avg, sqrt(variance));
    PassIs(ps, sqrt, avg, sqrt(variance));
    WithinTwoSd(avg, p, variance, sqrt);
    KeepMembers(ps, avg, 2.0 * sqrt(variance), sqrt, p);
  }

  /**
   * `iterate_all`: the candidate cloud, thinned by the rejection loop, and its centroid.
   * An empty cloud makes the first `get_stats` raise, so the caller must supply a list
   * with at least one solvable triple.
   */
  method IterateAll(networks: seq<Network>, solve: (Network, Network, Network) -> Option<Point>, sqrt: real -> real)
    returns (estimate: Point)
    requires |Cloud(networks, solve)| > 0
    ensures estimate == Centroid(Reject(Cloud(networks, solve), sqrt))
  {
    var allPoints := Candidates(networks, solve);
    ghost var cloud := allPoints;
    var pointDifference := 999;
    while pointDifference != 0
      invariant |allPoints| > 0
      invariant pointDifference != 0 ==> Reject(allPoints, sqrt) == Reject(cloud, sqrt)
      invariant pointDifference == 0 ==> allPoints == Reject(cloud, sqrt)
      decreases |allPoints| + if pointDifference == 0 then 0 else 1
    {
      var originalPointCount := |allPoints|;
      var stats := GetStats(allPoints, sqrt);
      var avg := stats.0;
      var sd := stats.1;
      // `sdCount` is 2
      var newPoints := Keep(allPoints, avg, 2.0 * sd, sqrt);
      Turn(allPoints, sqrt, avg, sd, newPoints);
      pointDifference := originalPointCount - |newPoints|;
      if pointDifference != |allPoints| {
        allPoints := newPoints;
      } else {
        pointDifference := 0;
      }
    }
    estimate := Centroid(allPoints);
  }

  // ---------------------------------------------------------------------------------
  // `err_controller`

  /** The readings of one level: sample location to its list of scans. */
  type LevelData = Dict<Point, seq<seq<Network>>>

  predicate AllSolvable(levelData: LevelData, solve: (Network, Network, Network) -> Option<Point>) {
    forall m, s :: 0 <= m < |levelData| && 0 <= s < |levelData[m].1| ==> |Cloud(levelData[m].1[s], solve)| > 0
  }

  /** The error of one scan's estimate against the location it was taken at. */
  function ScanError(actual: Point, scan: seq<Network>, solve: (Network, Network, Network) -> Option<Point>, sqrt: real -> real): real
    requires |Cloud(scan, solve)| > 0
  {
    Distance(Centroid(Reject(Cloud(scan, solve), sqrt)), actual, sqrt)
  }

  /** The errors of every scan, location by location. */
  function Errors(levelData: LevelData, solve: (Network, Network, Network) -> Option<Point>, sqrt: real -> real): (errs: seq<seq<real>>)
    requires AllSolvable(levelData, solve)
    ensures |errs| == |levelData|
    ensures forall m :: 0 <= m < |levelData| ==> |errs[m]| == |levelData[m].1|
    ensures forall m, s :: 0 <= m < |levelData| && 0 <= s < |levelData[m].1| ==>
      errs[m][s] == ScanError(levelData[m].0, levelData[m].1[s], solve, sqrt)
  {
    seq(|levelData|, m requires 0 <= m < |levelData| =>
      seq(|levelData[m].1|, s requires 0 <= s < |levelData[m].1| => ScanError(levelData[m].0, levelData[m].1[s], solve, sqrt)))
  }

  function Sum(xs: seq<real>): real
    decreases |xs|
  {
    if |xs| == 0 then 0.0 else Sum(xs[..|xs| - 1]) + xs[|xs| - 1]
  }

  /**
   * The running total as `err_controller` computes it: after each location's errors are
   * added, the whole total is divided by the number of locations `count`.
   */
  function TotalAsWritten(errs: seq<seq<real>>, count: nat): real
    requires |errs| <= count
    decreases |errs|
  {
    if |errs| == 0 then 0.0
    else (TotalAsWritten(errs[..|errs| - 1], count) + Sum(errs[|errs| - 1])) / (count as real)
  }

  /** The evident intent: the summed errors of all locations, divided once by the number of locations. */
  function TotalCorrected(errs: seq<seq<real>>): (t: real)
    ensures |errs| == 0 ==> t == 0.0
  {
    if |errs| == 0 then 0.0 else SumAll(errs) / (|errs| as real)
  }

  function SumAll(errs: seq<seq<real>>): real
    decreases |errs|
  {
    if |errs| == 0 then 0.0 else SumAll(errs[..|errs| - 1]) + Sum(errs[|errs| - 1])
  }

  /** `err_bound`: the result is clamped to [0, 1e-4]. */
  function Clamp(x: real): (r: real)
    ensures 0.0 <= r <= 0.0001
    ensures 0.0 <= x <= 0.0001 ==> r == x
    ensures x < 0.0 ==> r == 0.0
    ensures x > 0.0001 ==> r == 0.0001
  {
    if x < 0.0 then 0.0 else if x > 0.0001 then 0.0001 else x
  }

  /** When every location's errors add up to the same `e`, the corrected total is `e`: it is a mean. */
  lemma CorrectedIsMean(errs: seq<seq<real>>, e: real)
    requires |errs| > 0 && forall m :: 0 <= m < |errs| ==> Sum(errs[m]) == e
    ensures TotalCorrected(errs) == e
  {
    var n := |errs| as real;
    SumAllConstant(errs, e);
    assert TotalCorrected(errs) == (n * e) / n;
    DivideOut(n, e);
  }

  lemma DivideOut(n: real, e: real)
    requires n > 0.0
    ensures (n * e) / n == e
  {
  }

  lemma {:induction false} SumAllConstant(errs: seq<seq<real>>, e: real)
    requires forall m :: 0 <= m < |errs| ==> Sum(errs[m]) == e
    ensures SumAll(errs) == (|errs| as real) * e
    decreases |errs|
  {
    if |errs| > 0 {
      SumAllConstant(errs[..|errs| - 1], e);
    }
  }

  /** With one location the code's total and the intended one agree. */
  lemma OneLocationAgrees(errs: seq<seq<real>>)
    requires |errs| == 1
    ensures TotalAsWritten(errs, 1) == TotalCorrected(errs)
  {
    assert errs[..0] == [];
    assert TotalAsWritten(errs, 1) == Sum(errs[0]);
    assert SumAll(errs) == Sum(errs[0]);
  }

  /**
   * With two locations whose errors each add up to 2, the code's total is 1.5 instead of
   * 2: the first location's errors are divided by the number of locations twice.
   */
  lemma TwoLocationsDisagree()
    ensures TotalAsWritten([[2.0], [2.0]], 2) == 1.5
    ensures TotalCorrected([[2.0], [2.0]]) == 2.0
  {
    var errs: seq<seq<real>> := [[2.0], [2.0]];
    var one: seq<real> := [2.0];
    assert errs[..1] == [one];
    assert errs[..1][..0] == [];
    assert one[..0] == [];
    assert Sum([2.0]) == 2.0;
    CorrectedIsMean(errs, 2.0);
  }

  /** The error `err_controller` adds for scan `s` of location `m`. */
  lemma ErrorIs(levelData: LevelData, solve: (Network, Network, Network) -> Option<Point>, sqrt: real -> real, m: nat, s: nat)
    requires AllSolvable(levelData, solve) && m < |levelData| && s < |levelData[m].1|
    ensures |Cloud(levelData[m].1[s], solve)| > 0
    ensures Errors(levelData, solve, sqrt)[m][s] ==
      Distance(Centroid(Reject(Cloud(levelData[m].1[s], solve), sqrt)), levelData[m].0, sqrt)
  {
  }

  lemma SumSnoc(xs: seq<real>, s: nat)
    requires s < |xs|
    ensures Sum(xs[..s + 1]) == Sum(xs[..s]) + xs[s]
  {
    assert xs[..s + 1][..s] == xs[..s];
  }

  lemma TotalSnoc(errs: seq<seq<real>>, m: nat, count: nat, total: real)
    requires m < |errs| <= count && total == TotalAsWritten(errs[..m], count) + Sum(errs[m])
    ensures TotalAsWritten(errs[..m + 1], count) == total / (count as real)
  {
    assert errs[..m + 1][..m] == errs[..m];
  }

  /**
   * `err_controller` for the one level it looks at (`levels = [2]`): the errors of all
   * scans, combined as the code combines them, then clamped to [0, 1e-4]. `apDict` is
   * the notebook's global table of levels; a missing level 2 raises `KeyError`.
   */
  method ErrController(apDict: Dict<int, LevelData>, solve: (Network, Network, Network) -> Option<Point>, sqrt: real -> real)
    returns (errTotal: real)
    requires HasKey(apDict, 2) && AllSolvable(Get(apDict, 2), solve)
    ensures 0.0 <= errTotal <= 0.0001
    ensures errTotal == Clamp(TotalAsWritten(Errors(Get(apDict, 2), solve, sqrt), |Get(apDict, 2)|))
    ensures |Get(apDict, 2)| == 1 ==> errTotal == Clamp(TotalCorrected(Errors(Get(apDict, 2), solve, sqrt)))
  {
    errTotal := 0.0;
    var levelData := Get(apDict, 2);
    ghost var errs := Errors(levelData, solve, sqrt);
    var count := |levelData|;
    for m := 0 to |levelData|
      invariant errTotal == TotalAsWritten(errs[..m], count)
    {
      var (actualPoint, scans) := levelData[m];
      ghost var before := errTotal;
      for s := 0 to |scans|
        invariant errTotal == before + Sum(errs[m][..s])
      {
        var predictedPoint := IterateAll(scans[s], solve, sqrt);
        var err := Distance(predictedPoint, actualPoint, sqrt);
        ErrorIs(levelData, solve, sqrt, m, s);
        SumSnoc(errs[m], s);
        errTotal := errTotal + err;
      }
      assert |errs[m]| == |scans| && errs[m][..|scans|] == errs[m];
      TotalSnoc(errs, m, count, errTotal);
      errTotal := errTotal / count as real;
    }
    assert errs[..|levelData|] == errs;
    if count == 1 {
      OneLocationAgrees(errs);
    }
    if errTotal < 0.0 {
      errTotal := 0.0;
    }
    if errTotal > 0.0001 {
      errTotal := 0.0001;
    }
  }
}
