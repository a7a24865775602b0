/**
 * The values the mobile client's map builders consume and produce: raw survey
 * records as the building-data query returns them, and GeoJSON-style features whose
 * property objects are modelled as maps from property name to value.
 */
module Features {
  import opened Text

  /** A two-element coordinate array `[first, second]`. */
  datatype Coord = Coord(first: real, second: real)

  /** `[a, b]` becomes `[b, a]`: the builders' (lat, lon) to (lon, lat) axis swap. */
  function Swap(c: Coord): Coord {
    Coord(c.second, c.first)
  }

  /** A surveyed polygon: vertices as `[lat, lon]` arrays, a level string and tags. */
  datatype PolygonRecord = PolygonRecord(id: int, vertices: seq<Coord>, level: string, tags: map<string, string>)

  /** A surveyed node, wall point or point of interest. */
  datatype NodeRecord = NodeRecord(id: int, lat: real, lon: real, level: string, tags: map<string, string>)

  /** A surveyed edge `{edge: [a, b]}` between two node or wall ids. */
  datatype EdgeRecord = EdgeRecord(a: int, b: int)

  /** A value stored in a feature's `properties` object. */
  datatype PropValue =
    | Tag(text: string)                    // a survey tag copied by object spread
    | Levels(levels: seq<ParsedInt>)       // a level list from `levelToArray`
    | LevelText(raw: string)               // a level string copied unparsed
    | PolygonObject(polygon: PolygonRecord) // `queryObject` of a polygon feature
    | NodeObject(node: NodeRecord)          // `queryObject` of a point feature
    | EdgeIds(edge: EdgeRecord)             // `edge` of a line feature

  type Properties = map<string, PropValue>

  datatype Geometry =
    | PolygonGeometry(rings: seq<seq<Coord>>)
    | PointGeometry(points: seq<Coord>)
    | LineStringGeometry(line: seq<Coord>)

  datatype Feature = Feature(geometry: Geometry, properties: Properties)

  /** A feature collection: its name, its coordinate reference system name and its features. */
  datatype FeatureCollection = FeatureCollection(name: string, crs: string, features: seq<Feature>)

  /** The reference system both builders declare. */
  const Crs84: string := "urn:ogc:def:crs:OGC:1.3:CRS84"

  /** Object spread `{...tags}`: every tag becomes a string property of the same name. */
  function SpreadTags(tags: map<string, string>): (p: Properties)
    ensures p.Keys == tags.Keys
    ensures forall k :: k in tags ==> p[k] == Tag(tags[k])
  {
    map k | k in tags :: Tag(tags[k])
  }
}
