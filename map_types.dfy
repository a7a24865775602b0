/**
 * The server's map records (server/src/types/map_types.py) and the Python values that
 * GeoJSON properties, tags and flattened records hold.
 */
module MapTypes {
  import opened Wrappers
  import opened Text

  /** A Python value as read from JSON: `None`, a bool, an int, a float, a str or a list. */
  datatype Value = Null | Bool(b: bool) | Int(i: int) | Real(r: real) | Str(s: string) | List(items: seq<Value>)

  /** The number a bool, int or float stands for in Python arithmetic (`True == 1`). */
  function Numeric(v: Value): Option<real> {
    match v
    case Bool(b) => Some(if b then 1.0 else 0.0)
    case Int(i) => Some(i as real)
    case Real(r) => Some(r)
    case _ => None
  }

  /**
   * Python `==`: numbers compare by value whatever their type, strings by their
   * characters, lists element by element, and values of other kinds are unequal.
   */
  predicate PyEq(a: Value, b: Value)
    decreases a
  {
    if Numeric(a).Some? || Numeric(b).Some? then Numeric(a) == Numeric(b)
    else match (a, b)
      case (Null, Null) => true
      case (Str(x), Str(y)) => x == y
      case (List(xs), List(ys)) => |xs| == |ys| && forall i :: 0 <= i < |xs| ==> PyEq(xs[i], ys[i])
      case _ => false
  }

  /** Python `==` is reflexive on the values a JSON document can hold. */
  lemma {:induction false} PyEqReflexive(v: Value)
    ensures PyEq(v, v)
    decreases v
  {
    match v
    case List(xs) =>
      forall i | 0 <= i < |xs| ensures PyEq(xs[i], xs[i]) {
        PyEqReflexive(xs[i]);
      }
    case _ =>
  }

  /**
   * Python `float(v)`: a number converts to itself, a string is parsed, and `None` stands
   * for the `ValueError` or `TypeError` raised by anything else.
   */
  function PyFloatOf(v: Value): (r: Option<real>)
    ensures Numeric(v).Some? ==> r == Numeric(v)
    ensures v.Null? || v.List? ==> r.None?
  {
    match v
    case Str(s) => PyFloat(s)
    case _ => Numeric(v)
  }

  /** A GeoJSON `properties` object or a record's `tags`: Python dicts whose order is never read. */
  type Tags = map<string, Value>

  /** A latitude-longitude pair, as the server stores it. */
  type LatLon = (real, real)

  /** Shapely's `Point.distance`, between two points given as (lat, lon). */
  type Distance = (LatLon, LatLon) -> real

  /**
   * `PathNode`. `level` holds whatever the feature's "level" property held; pydantic's
   * coercion of it to a float is not modelled.
   */
  datatype PathNode = PathNode(id: int, graph: string, level: Value, lat: real, lon: real, polyId: int, tags: Tags)

  /** `PoI`: note that `lon` is declared before `lat`. */
  datatype PoI = PoI(id: int, graph: string, level: Value, lon: real, lat: real, nearestPathNode: Option<int>, tags: Tags)

  /**
   * `Polygon`. The fields are declared `id, graph, level, vertices, NE, SW, tags`; the
   * polygon parser fills them positionally with the level first and the graph name
   * second, so each field here is a `Value` able to hold what it is given.
   */
  datatype Polygon = Polygon(id: int, graph: Value, level: Value, vertices: seq<LatLon>, ne: LatLon, sw: LatLon, tags: Tags)
}
