/**
 * The closed-form trilateration of the localisation prototype
 * (src/localisation/trilateration.py): the two linear equations obtained by
 * subtracting the circle equations of consecutive anchors, solved by Cramer's rule.
 */
module TrilaterationSolver {
  import opened Wrappers

  /** A computed position `[x, y]`. */
  datatype Fix = Fix(x: real, y: real)

  /** The input shape the function indexes: three anchors of two coordinates each, and three distances. */
  predicate WellFormed(aps: seq<seq<real>>, ds: seq<real>) {
    |aps| >= 3 && |ds| >= 3 && |aps[0]| >= 2 && |aps[1]| >= 2 && |aps[2]| >= 2
  }

  /** The coefficients `a, b, c, d, e, f` of the two equations `a·x + b·y = c` and `d·x + e·y = f`. */
  datatype System = System(a: real, b: real, c: real, d: real, e: real, f: real)

  function Sq(v: real): real { v * v }

  function SystemOf(aps: seq<seq<real>>, ds: seq<real>): System
    requires WellFormed(aps, ds)
  {
    var p1, p2, p3 := aps[0], aps[1], aps[2];
    var r1, r2, r3 := ds[0], ds[1], ds[2];
    System(
      -2.0 * p1[0] + 2.0 * p2[0],
      -2.0 * p1[1] + 2.0 * p2[1],
      Sq(r1) - Sq(r2) - Sq(p1[0]) + Sq(p2[0]) - Sq(p1[1]) + Sq(p2[1]),
      -2.0 * p2[0] + 2.0 * p3[0],
      -2.0 * p2[1] + 2.0 * p3[1],
      Sq(r2) - Sq(r3) - Sq(p2[0]) + Sq(p3[0]) - Sq(p2[1]) + Sq(p3[1]))
  }

  /** Cramer's rule on the two equations; `None` where a denominator is zero. */
  function Solve(s: System): (r: Option<Fix>)
    ensures r.Some? ==> s.a * r.value.x + s.b * r.value.y == s.c && s.d * r.value.x + s.e * r.value.y == s.f
  {
    var D := s.e * s.a - s.b * s.d;
    var D' := s.b * s.d - s.a * s.e;
    if D == 0.0 || D' == 0.0 then None
    else
      var r := Fix((s.c * s.e - s.f * s.b) / D, (s.c * s.d - s.a * s.f) / D');
      CramerSolves(s, r);
      Some(r)
  }

  /**
   * `trilaterate_triplet(ap_triplet, distance_triplet)`. Python raises
   * `ZeroDivisionError` when a denominator is zero; that outcome is `None`.
   */
  function TrilaterateTriplet(aps: seq<seq<real>>, ds: seq<real>): (r: Option<Fix>)
    requires WellFormed(aps, ds)
    ensures var s := SystemOf(aps, ds);
      r.Some? ==> s.a * r.value.x + s.b * r.value.y == s.c && s.d * r.value.x + s.e * r.value.y == s.f
  {
    Solve(SystemOf(aps, ds))
  }

  lemma CramerSolves(s: System, r: Fix)
    requires s.e * s.a - s.b * s.d != 0.0
    requires r.x == (s.c * s.e - s.f * s.b) / (s.e * s.a - s.b * s.d)
    requires r.y == (s.c * s.d - s.a * s.f) / (s.b * s.d - s.a * s.e)
    ensures s.a * r.x + s.b * r.y == s.c && s.d * r.x + s.e * r.y == s.f
  {
    var D := s.e * s.a - s.b * s.d;
    assert s.b * s.d - s.a * s.e == -D;
    assert r.x * D == s.c * s.e - s.f * s.b;
    assert r.y * D == s.a * s.f - s.c * s.d;
    assert (s.a * r.x + s.b * r.y) * D == s.c * D;
    assert (s.d * r.x + s.e * r.y) * D == s.f * D;
  }

  /** The three anchors lie on one line: the cross product of `p2 - p1` and `p3 - p1` is zero. */
  predicate Collinear(p1: seq<real>, p2: seq<real>, p3: seq<real>)
    requires |p1| >= 2 && |p2| >= 2 && |p3| >= 2
  {
    (p2[0] - p1[0]) * (p3[1] - p1[1]) - (p2[1] - p1[1]) * (p3[0] - p1[0]) == 0.0
  }

  /**
   * The two denominators are negations of each other, and they vanish exactly when the
   * anchors are collinear, which is exactly when the function fails.
   */
  lemma DenominatorsVanishIffCollinear(aps: seq<seq<real>>, ds: seq<real>)
    requires WellFormed(aps, ds)
    ensures var s := SystemOf(aps, ds);
      s.b * s.d - s.a * s.e == -(s.e * s.a - s.b * s.d)
    ensures SystemOf(aps, ds).e * SystemOf(aps, ds).a - SystemOf(aps, ds).b * SystemOf(aps, ds).d
      == 4.0 * ((aps[1][0] - aps[0][0]) * (aps[2][1] - aps[0][1]) - (aps[1][1] - aps[0][1]) * (aps[2][0] - aps[0][0]))
    ensures TrilaterateTriplet(aps, ds).None? <==> Collinear(aps[0], aps[1], aps[2])
  {
    var s := SystemOf(aps, ds);
    DeterminantIsCross(aps, ds);
    SolveFailsIff(s);
  }

  /** Cramer's rule fails exactly when the determinant is zero. */
  lemma SolveFailsIff(s: System)
    ensures Solve(s).None? <==> s.e * s.a - s.b * s.d == 0.0
  {
    assert s.b * s.d - s.a * s.e == -(s.e * s.a - s.b * s.d);
  }

  lemma DeterminantIsCross(aps: seq<seq<real>>, ds: seq<real>)
    requires WellFormed(aps, ds)
    ensures SystemOf(aps, ds).e * SystemOf(aps, ds).a - SystemOf(aps, ds).b * SystemOf(aps, ds).d
      == 4.0 * ((aps[1][0] - aps[0][0]) * (aps[2][1] - aps[0][1]) - (aps[1][1] - aps[0][1]) * (aps[2][0] - aps[0][0]))
  {
    var p1, p2, p3 := aps[0], aps[1], aps[2];
    var s := SystemOf(aps, ds);
    assert s.a == 2.0 * (p2[0] - p1[0]) && s.b == 2.0 * (p2[1] - p1[1]);
    assert s.d == 2.0 * (p3[0] - p2[0]) && s.e == 2.0 * (p3[1] - p2[1]);
    CrossProduct(s.a, s.b, s.d, s.e, p1[0], p1[1], p2[0], p2[1], p3[0], p3[1]);
  }

  /** The determinant of the two equations is four times the cross product of `p2 - p1` and `p3 - p1`. */
  lemma CrossProduct(a: real, b: real, d: real, e: real, x1: real, y1: real, x2: real, y2: real, x3: real, y3: real)
    requires a == 2.0 * (x2 - x1) && b == 2.0 * (y2 - y1) && d == 2.0 * (x3 - x2) && e == 2.0 * (y3 - y2)
    ensures e * a - b * d == 4.0 * ((x2 - x1) * (y3 - y1) - (y2 - y1) * (x3 - x1))
  {
    var ux, uy, vx, vy := x2 - x1, y2 - y1, x3 - x2, y3 - y2;
    assert e * a == 4.0 * (vy * ux);
    assert b * d == 4.0 * (uy * vx);
    assert ux * (y3 - y1) == ux * uy + ux * vy;
    assert uy * (x3 - x1) == uy * ux + uy * vx;
  }

  /** `(x, y)` lies at distance `r` from the anchor `p`. */
  predicate AtDistance(x: real, y: real, p: seq<real>, r: real)
    requires |p| >= 2
  {
    Sq(x - p[0]) + Sq(y - p[1]) == Sq(r)
  }

  /** A point at exactly the given distances from three non-collinear anchors is recovered exactly. */
  lemma RecoversExactPoint(aps: seq<seq<real>>, ds: seq<real>, x: real, y: real)
    requires WellFormed(aps, ds)
    requires !Collinear(aps[0], aps[1], aps[2])
    requires AtDistance(x, y, aps[0], ds[0]) && AtDistance(x, y, aps[1], ds[1]) && AtDistance(x, y, aps[2], ds[2])
    ensures TrilaterateTriplet(aps, ds) == Some(Fix(x, y))
  {
    var s := SystemOf(aps, ds);
    assert s.e * s.a - s.b * s.d != 0.0 by {
      DenominatorsVanishIffCollinear(aps, ds);
    }
    EquationsHold(aps, ds, x, y);
    SolveUnique(s, x, y);
  }

  /** Subtracting the circle equations of consecutive anchors leaves two linear equations that `(x, y)` satisfies. */
  lemma EquationsHold(aps: seq<seq<real>>, ds: seq<real>, x: real, y: real)
    requires WellFormed(aps, ds)
    requires AtDistance(x, y, aps[0], ds[0]) && AtDistance(x, y, aps[1], ds[1]) && AtDistance(x, y, aps[2], ds[2])
    ensures var s := SystemOf(aps, ds); s.a * x + s.b * y == s.c && s.d * x + s.e * y == s.f
  {
    LinearFromCircles(x, y, aps[0], aps[1], ds[0], ds[1]);
    LinearFromCircles(x, y, aps[1], aps[2], ds[1], ds[2]);
  }

  /** A system with a non-zero determinant has the one solution Cramer's rule gives. */
  lemma SolveUnique(s: System, x: real, y: real)
    requires s.e * s.a - s.b * s.d != 0.0
    requires s.a * x + s.b * y == s.c && s.d * x + s.e * y == s.f
    ensures Solve(s) == Some(Fix(x, y))
  {
    var D := s.e * s.a - s.b * s.d;
    var D' := s.b * s.d - s.a * s.e;
    CramerNumerators(s.a, s.b, s.c, s.d, s.e, s.f, x, y);
    assert D' == -D && D' != 0.0;
    assert Solve(s).Some?;
    assert Solve(s).value.x == (s.c * s.e - s.f * s.b) / D;
    assert Solve(s).value.y == (s.c * s.d - s.a * s.f) / D';
    QuotientCancels(x, D);
    QuotientCancels(y, D');
    assert (s.c * s.e - s.f * s.b) / D == x;
    assert (s.c * s.d - s.a * s.f) / D' == y;
  }

  lemma CramerNumerators(a: real, b: real, c: real, d: real, e: real, f: real, x: real, y: real)
    requires a * x + b * y == c && d * x + e * y == f
    ensures c * e - f * b == x * (e * a - b * d)
    ensures c * d - a * f == y * (b * d - a * e)
  {
    calc {
      c * e - f * b;
      (a * x + b * y) * e - (d * x + e * y) * b;
      a * x * e + b * y * e - d * x * b - e * y * b;
      x * (e * a - b * d);
    }
    calc {
      c * d - a * f;
      (a * x + b * y) * d - a * (d * x + e * y);
      a * x * d + b * y * d - a * d * x - a * e * y;
      y * (b * d - a * e);
    }
  }

  lemma QuotientCancels(x: real, D: real)
    requires D != 0.0
    ensures (x * D) / D == x
  {
  }

  lemma LinearFromCircles(x: real, y: real, p: seq<real>, q: seq<real>, rp: real, rq: real)
    requires |p| >= 2 && |q| >= 2
    requires AtDistance(x, y, p, rp) && AtDistance(x, y, q, rq)
    ensures (-2.0 * p[0] + 2.0 * q[0]) * x + (-2.0 * p[1] + 2.0 * q[1]) * y
      == Sq(rp) - Sq(rq) - Sq(p[0]) + Sq(q[0]) - Sq(p[1]) + Sq(q[1])
  {
    assert Sq(x - p[0]) == x * x - 2.0 * x * p[0] + Sq(p[0]);
    assert Sq(y - p[1]) == y * y - 2.0 * y * p[1] + Sq(p[1]);
    assert Sq(x - q[0]) == x * x - 2.0 * x * q[0] + Sq(q[0]);
    assert Sq(y - q[1]) == y * y - 2.0 * y * q[1] + Sq(q[1]);
  }

  /** Only the first three anchors, their first two coordinates, and the first three distances are read. */
  lemma ReadsOnlyTriplet(aps: seq<seq<real>>, ds: seq<real>, aps': seq<seq<real>>, ds': seq<real>)
    requires WellFormed(aps, ds) && WellFormed(aps', ds')
    requires forall i, j :: 0 <= i < 3 && 0 <= j < 2 ==> aps[i][j] == aps'[i][j]
    requires ds[..3] == ds'[..3]
    ensures TrilaterateTriplet(aps, ds) == TrilaterateTriplet(aps', ds')
  {
    assert ds[0] == ds'[0] && ds[1] == ds'[1] && ds[2] == ds'[2] by {
      assert ds[..3][0] == ds[0] && ds[..3][1] == ds[1] && ds[..3][2] == ds[2];
    }
    assert aps[0][0] == aps'[0][0] && aps[0][1] == aps'[0][1];
    assert aps[1][0] == aps'[1][0] && aps[1][1] == aps'[1][1];
    assert aps[2][0] == aps'[2][0] && aps[2][1] == aps'[2][1];
    SameSystem(aps, ds, aps', ds');
  }

  lemma SameSystem(aps: seq<seq<real>>, ds: seq<real>, aps': seq<seq<real>>, ds': seq<real>)
    requires WellFormed(aps, ds) && WellFormed(aps', ds')
    requires aps[0][0] == aps'[0][0] && aps[0][1] == aps'[0][1]
    requires aps[1][0] == aps'[1][0] && aps[1][1] == aps'[1][1]
    requires aps[2][0] == aps'[2][0] && aps[2][1] == aps'[2][1]
    requires ds[0] == ds'[0] && ds[1] == ds'[1] && ds[2] == ds'[2]
    ensures SystemOf(aps, ds) == SystemOf(aps', ds')
  {
  }

  /** Distances matter only through `r1² − r2²` and `r2² − r3²`. */
  lemma DistancesOnlyThroughDifferences(aps: seq<seq<real>>, ds: seq<real>, ds': seq<real>)
    requires WellFormed(aps, ds) && WellFormed(aps, ds')
    requires Sq(ds[0]) - Sq(ds[1]) == Sq(ds'[0]) - Sq(ds'[1])
    requires Sq(ds[1]) - Sq(ds[2]) == Sq(ds'[1]) - Sq(ds'[2])
    ensures TrilaterateTriplet(aps, ds) == TrilaterateTriplet(aps, ds')
  {
    assert SystemOf(aps, ds) == SystemOf(aps, ds');
  }

  /** A worked example: anchors (0,0), (10,0), (0,10) and the point (3,4) at distances 5, √65 and √45. */
  lemma SampleRecovery(r1: real, r2: real, r3: real)
    requires Sq(r1) == 25.0 && Sq(r2) == 65.0 && Sq(r3) == 45.0
    ensures TrilaterateTriplet([[0.0, 0.0], [10.0, 0.0], [0.0, 10.0]], [r1, r2, r3]) == Some(Fix(3.0, 4.0))
  {
    var aps := [[0.0, 0.0], [10.0, 0.0], [0.0, 10.0]];
    RecoversExactPoint(aps, [r1, r2, r3], 3.0, 4.0);
  }
}
