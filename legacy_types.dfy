/**
 * What the three path-finding parsers of the first prototype (src/path_finding/graph_parser.py,
 * src/path_finding/parser.py and Path_Finding/Parser.py) read from their GeoJSON files:
 * lines of `[x, y]` points and rooms made of rings of such points. pygeodesy's
 * `LatLon(...).isenclosedBy(vertices)` is the parameter `encloses`.
 */
module LegacyTypes {
  import opened MapTypes

  /** A node's `coordinates`: `(point[0], point[1])` as read from the file. */
  type Coord = (real, real)

  /** A room feature (or, for the first parser, an access area): its rings and its properties. */
  datatype Region = Region(rings: seq<seq<seq<real>>>, properties: Tags)

  /** pygeodesy's enclosure test: `LatLon(c.0, c.1).isenclosedBy([LatLon(v[0], v[1]) for v in ring])`. */
  type Enclosure = (Coord, seq<Coord>) -> bool

  /** Every point holds the two numbers the parsers index. */
  predicate PointsReadable(points: seq<seq<real>>) {
    forall j :: 0 <= j < |points| ==> |points[j]| >= 2
  }

  /** The pair a point is read as. */
  function PointOf(point: seq<real>): Coord
    requires |point| >= 2
  {
    (point[0], point[1])
  }

  /** A ring's vertices, in ring order. */
  function Vertices(ring: seq<seq<real>>): (vs: seq<Coord>)
    requires PointsReadable(ring)
    ensures |vs| == |ring|
  {
    seq(|ring|, j requires 0 <= j < |ring| && PointsReadable(ring) => PointOf(ring[j]))
  }

  /** The vertex list the parsers build with an append loop, one vertex per point of the ring. */
  method ReadVertices(ring: seq<seq<real>>) returns (vertices: seq<Coord>)
    requires PointsReadable(ring)
    ensures vertices == Vertices(ring)
  {
    vertices := [];
    for j := 0 to |ring|
      invariant vertices == Vertices(ring[..j])
    {
      vertices := vertices + [PointOf(ring[j])];
    }
    assert ring[..|ring|] == ring;
  }
}
