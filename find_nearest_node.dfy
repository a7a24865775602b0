/**
 * The mobile client's nearest-path-node search (app/lib/findNearestNode.js): among the
 * features tagged `indoor: way` whose first level is the user's level, the one whose
 * first coordinate is closest to the user's point.
 */
module NearestNode {
  import opened Wrappers
  import opened Text
  import opened Features

  /** `Number.MAX_SAFE_INTEGER`, the initial bound of the search. */
  const MaxSafeInteger: real := 9007199254740991.0

  /** The user's position: a point in the features' axis order and an integer level. */
  datatype Location = Location(point: Coord, level: int)

  /** `feature.properties.indoor === 'way'`. */
  predicate WayTagged(f: Feature) {
    "indoor" in f.properties && f.properties["indoor"] == Tag("way")
  }

  /**
   * The filter of the search: a way whose level list starts with the user's level. A
   * level that is not a list (or an empty list) has no numeric first element, so the
   * strict comparison fails.
   */
  predicate IsCandidate(loc: Location, f: Feature) {
    && WayTagged(f)
    && "level" in f.properties && f.properties["level"].Levels?
    && |f.properties["level"].levels| > 0 && f.properties["level"].levels[0] == Num(loc.level)
  }

  /** `geometry.coordinates[0]` exists and can be indexed. */
  predicate HasFirstCoordinate(f: Feature) {
    match f.geometry
    case PointGeometry(ps) => |ps| > 0
    case LineStringGeometry(ps) => |ps| > 0
    case PolygonGeometry(rings) => |rings| > 0
  }

  /**
   * The point the distance is measured to: the first coordinate of a point or a line.
   * For a polygon the first coordinate is a ring, and subtracting it gives `NaN`,
   * which is never below the bound, so a polygon has none.
   */
  function FirstPoint(f: Feature): Option<Coord> {
    match f.geometry
    case PointGeometry(ps) => if |ps| > 0 then Some(ps[0]) else None
    case LineStringGeometry(ps) => if |ps| > 0 then Some(ps[0]) else None
    case PolygonGeometry(_) => None
  }

  /** The square of `Math.hypot` of the difference; comparing squares of non-negative distances keeps their order. */
  function SqDist(a: Coord, b: Coord): (d: real)
    ensures d >= 0.0
  {
    (a.first - b.first) * (a.first - b.first) + (a.second - b.second) * (a.second - b.second)
  }

  /** A candidate that can win: its distance is below the initial bound. */
  predicate Eligible(loc: Location, f: Feature) {
    IsCandidate(loc, f) && FirstPoint(f).Some? && SqDist(loc.point, FirstPoint(f).value) < MaxSafeInteger * MaxSafeInteger
  }

  function Distance2(loc: Location, f: Feature): real
    requires FirstPoint(f).Some?
  {
    SqDist(loc.point, FirstPoint(f).value)
  }

  /**
   * `findNearestNode(location, geoJson)`. The filter and the loop over its result are
   * fused into one loop that skips what the filter drops; the order of the remaining
   * features, and so the outcome, is the same. A strict `<` keeps the earliest of equally
   * close candidates.
   */
  method FindNearestNode(loc: Location, features: seq<Feature>) returns (closest: Option<Feature>)
    requires forall i :: 0 <= i < |features| && WayTagged(features[i]) ==> "level" in features[i].properties
    requires forall i :: 0 <= i < |features| && IsCandidate(loc, features[i]) ==> HasFirstCoordinate(features[i])
    ensures closest.None? <==> forall i :: 0 <= i < |features| ==> !Eligible(loc, features[i])
    ensures closest.Some? ==> exists i ::
      && 0 <= i < |features| && features[i] == closest.value
      && Eligible(loc, closest.value)
      && (forall j :: 0 <= j < |features| && Eligible(loc, features[j]) ==>
            Distance2(loc, closest.value) <= Distance2(loc, features[j]))
      && (forall j :: 0 <= j < i && Eligible(loc, features[j]) ==>
            Distance2(loc, closest.value) < Distance2(loc, features[j]))
  {
    var minSq := MaxSafeInteger * MaxSafeInteger;
    closest := None;
    ghost var at := 0;
    var i := 0;
    while i < |features|
      invariant 0 <= i <= |features|
      invariant closest.None? <==> forall j :: 0 <= j < i ==> !Eligible(loc, features[j])
      invariant closest.None? ==> minSq == MaxSafeInteger * MaxSafeInteger
      invariant closest.Some? ==> 0 <= at < i && features[at] == closest.value && Eligible(loc, closest.value)
      invariant closest.Some? ==> minSq == Distance2(loc, closest.value)
      invariant forall j :: 0 <= j < i && Eligible(loc, features[j]) ==> minSq <= Distance2(loc, features[j])
      invariant closest.Some? ==> forall j :: 0 <= j < at && Eligible(loc, features[j]) ==> minSq < Distance2(loc, features[j])
    {
      var f := features[i];
      if IsCandidate(loc, f) {
        var p := FirstPoint(f);
        if p.Some? {
          var d := SqDist(loc.point, p.value);
          if d < minSq {
            closest := Some(f);
            minSq := d;
            at := i;
          }
        }
      }
      i := i + 1;
    }
  }
}
