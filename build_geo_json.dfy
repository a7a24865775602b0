/**
 * The earlier map builder of the mobile client (app/components/buildGeoJson.js). It
 * builds the same polygon and point features with explicit loops, keeps each level as
 * the surveyed string, attaches no `queryObject`, and draws no lines.
 */
module LegacyGeoJson {
  import opened Features
  import GeoJson

  /** The feature the polygon loop pushes for one polygon. */
  function PolyFeature(p: PolygonRecord): Feature {
    Feature(PolygonGeometry([GeoJson.SwapAll(p.vertices)]), SpreadTags(p.tags)["level" := LevelText(p.level)])
  }

  /** The feature the node loop pushes for one node. */
  function NodeFeature(n: NodeRecord): Feature {
    Feature(PointGeometry([Coord(n.lon, n.lat)]), SpreadTags(n.tags)["level" := LevelText(n.level)])
  }

  /** `polyFeatures`: one feature per polygon, in order. */
  method PolyFeatures(polygons: seq<PolygonRecord>) returns (features: seq<Feature>)
    ensures |features| == |polygons|
    ensures forall i :: 0 <= i < |polygons| ==> features[i] == PolyFeature(polygons[i])
  {
    features := [];
    var i := 0;
    while i < |polygons|
      invariant 0 <= i <= |polygons|
      invariant |features| == i
      invariant forall j :: 0 <= j < i ==> features[j] == PolyFeature(polygons[j])
    {
      features := features + [PolyFeature(polygons[i])];
      i := i + 1;
    }
  }

  /** `nodeFeatures`: one point feature per node, in order. */
  method NodeFeatures(nodes: seq<NodeRecord>) returns (features: seq<Feature>)
    ensures |features| == |nodes|
    ensures forall i :: 0 <= i < |nodes| ==> features[i] == NodeFeature(nodes[i])
  {
    features := [];
    var i := 0;
    while i < |nodes|
      invariant 0 <= i <= |nodes|
      invariant |features| == i
      invariant forall j :: 0 <= j < i ==> features[j] == NodeFeature(nodes[j])
    {
      features := features + [NodeFeature(nodes[i])];
      i := i + 1;
    }
  }

  /**
   * `buildGeoJson(polygons, nodes, walls, edges)`: polygon features, then path nodes,
   * then wall points; the edges are not used.
   */
  method BuildGeoJson(polygons: seq<PolygonRecord>, nodes: seq<NodeRecord>, walls: seq<NodeRecord>,
                      edges: seq<EdgeRecord>) returns (fc: FeatureCollection)
    ensures fc.name == "Map" && fc.crs == Crs84
    ensures |fc.features| == |polygons| + |nodes| + |walls|
    ensures forall i :: 0 <= i < |polygons| ==> fc.features[i] == PolyFeature(polygons[i])
    ensures forall i :: 0 <= i < |nodes| ==> fc.features[|polygons| + i] == NodeFeature(nodes[i])
    ensures forall i :: 0 <= i < |walls| ==> fc.features[|polygons| + |nodes| + i] == NodeFeature(walls[i])
  {
    var ps := PolyFeatures(polygons);
    var ns := NodeFeatures(nodes);
    var ws := NodeFeatures(walls);
    fc := FeatureCollection("Map", Crs84, []);
    fc := fc.(features := fc.features + ps);
    fc := fc.(features := fc.features + ns);
    fc := fc.(features := fc.features + ws);
  }

  /**
   * Against the current builder: the same geometry and the same tags, but the level is
   * the raw string rather than a parsed list, and there is no `queryObject`.
   */
  lemma PolyFeatureAgrees(p: PolygonRecord)
    ensures PolyFeature(p).geometry == GeoJson.PolyFeature(p).geometry
    ensures PolyFeature(p).properties["level"] == LevelText(p.level)
    ensures forall k :: k != "queryObject" && k != "level" ==>
      (k in PolyFeature(p).properties <==> k in GeoJson.PolyFeature(p).properties) &&
      (k in PolyFeature(p).properties ==> PolyFeature(p).properties[k] == GeoJson.PolyFeature(p).properties[k])
    ensures "queryObject" in PolyFeature(p).properties <==> "queryObject" in p.tags
  {
  }

  lemma NodeFeatureAgrees(n: NodeRecord)
    ensures NodeFeature(n).geometry == GeoJson.NodeFeature(n).geometry
    ensures NodeFeature(n).properties["level"] == LevelText(n.level)
    ensures forall k :: k != "queryObject" && k != "level" ==>
      (k in NodeFeature(n).properties <==> k in GeoJson.NodeFeature(n).properties) &&
      (k in NodeFeature(n).properties ==> NodeFeature(n).properties[k] == GeoJson.NodeFeature(n).properties[k])
    ensures "queryObject" in NodeFeature(n).properties <==> "queryObject" in n.tags
  {
  }
}
