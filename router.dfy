/**
 * The server's router (server/src/path_finding/router.py). Path nodes are stored in the
 * routing graph as flat attribute dicts and rebuilt on demand; the A* heuristic charges
 * a penalty for entering rooms; turn directions come from the angle at the middle of
 * three nodes; route instructions are generated three nodes at a time.
 */
module Router {
  import opened Wrappers
  import opened Seqs
  import opened Text
  import opened MapTypes
  import PolygonParser

  /** A node's attribute dict, as the graph stores it. */
  type FlatDict = map<string, Value>

  /** `json.dumps` of a list and `json.loads` of a string, taken as given. */
  type Dumps = seq<Value> -> string
  type Loads = string -> Value

  /**
   * The angle in degrees between two non-zero vectors,
   * `math.degrees(math.acos(dot / (math.hypot(*v1) * math.hypot(*v2))))`, taken as given.
   */
  type VectorAngle = (LatLon, LatLon) -> real

  /** The prefix that marks a serialised list. */
  const Marker := "serialised:"

  /** `PathNode`'s fields other than `tags`, in declaration order, and as a set. */
  const NodeFields: seq<string> := ["id", "graph", "level", "lat", "lon", "poly_id"]
  const FieldNames: set<string> := {"id", "graph", "level", "lat", "lon", "poly_id"}

  /** The field names differ from one another. */
  lemma NamesDistinct()
    ensures "id" != "graph" && "id" != "level" && "id" != "lat" && "id" != "lon" && "id" != "poly_id"
    ensures "graph" != "level" && "graph" != "lat" && "graph" != "lon" && "graph" != "poly_id"
    ensures "level" != "lat" && "level" != "lon" && "level" != "poly_id"
    ensures "lat" != "lon" && "lat" != "poly_id" && "lon" != "poly_id"
  {
    assert "graph"[0] != "level"[0] && "lat"[1] != "lon"[1];
  }

  /** The field names are listed once each. */
  lemma FieldNamesListed()
    ensures forall f :: f in FieldNames <==> exists j :: 0 <= j < |NodeFields| && NodeFields[j] == f
    ensures forall i, j :: 0 <= i < j < |NodeFields| ==> NodeFields[i] != NodeFields[j]
  {
    forall f | f in FieldNames ensures exists j :: 0 <= j < |NodeFields| && NodeFields[j] == f {
      if f == "id" {
        assert NodeFields[0] == f;
      } else if f == "graph" {
        assert NodeFields[1] == f;
      } else if f == "level" {
        assert NodeFields[2] == f;
      } else if f == "lat" {
        assert NodeFields[3] == f;
      } else if f == "lon" {
        assert NodeFields[4] == f;
      } else {
        assert NodeFields[5] == f;
      }
    }
  }

  /** The values of a node's fields other than `tags`, by name. */
  function FieldMap(n: PathNode): map<string, Value> {
    map["id" := Int(n.id), "graph" := Str(n.graph), "level" := n.level,
        "lat" := Real(n.lat), "lon" := Real(n.lon), "poly_id" := Int(n.polyId)]
  }

  /** The (name, value) pairs `dataclasses.asdict` hands to its dict factory, `tags` aside. */
  function FieldPairs(n: PathNode): seq<(string, Value)> {
    [("id", Int(n.id)), ("graph", Str(n.graph)), ("level", n.level),
     ("lat", Real(n.lat)), ("lon", Real(n.lon)), ("poly_id", Int(n.polyId))]
  }

  // ---------------------------------------------------------------------------
  // Flattening a node and rebuilding it
  // ---------------------------------------------------------------------------

  /** One field's value in the flat dict: a list is serialised and `None` becomes "". */
  function Encode(v: Value, dumps: Dumps): Value {
    match v
    case List(items) => Str(Marker + dumps(items))
    case Null => Str("")
    case _ => v
  }

  /** The flat dict after the loop has seen `fields`: a later pair overwrites an earlier one. */
  function EncodeFields(fields: seq<(string, Value)>, dumps: Dumps): FlatDict
    decreases |fields|
  {
    if |fields| == 0 then map[]
    else
      var last := fields[|fields| - 1];
      EncodeFields(fields[..|fields| - 1], dumps)[last.0 := Encode(last.1, dumps)]
  }

  /** The flat dict of a record whose `tags` come last: the tags overwrite the fields. */
  function FlatOf(fields: seq<(string, Value)>, tags: Tags, dumps: Dumps): FlatDict {
    EncodeFields(fields, dumps) + tags
  }

  /** The attributes a path node is stored with. */
  function Flatten(n: PathNode, dumps: Dumps): FlatDict {
    FlatOf(FieldPairs(n), n.tags, dumps)
  }

  /** The dict factory `__dataclass_to_flat_dict`, given the fields in order and the tags last. */
  method DataclassToFlatDict(fields: seq<(string, Value)>, tags: Tags, dumps: Dumps) returns (flat: FlatDict)
    ensures flat == FlatOf(fields, tags, dumps)
  {
    flat := map[];
    for i := 0 to |fields|
      invariant flat == EncodeFields(fields[..i], dumps)
    {
      assert fields[..i + 1][..i] == fields[..i];
      var key, value := fields[i].0, fields[i].1;
      if value.List? {
        flat := flat[key := Str(Marker + dumps(value.items))];
      } else if value.Null? {
        flat := flat[key := Str("")];
      } else {
        flat := flat[key := value];
      }
    }
    assert fields[..|fields|] == fields;
    flat := flat + tags;
  }

  /**
   * A stored node holds one attribute per field and per tag; a tag's value is stored as
   * is and wins over a field of the same name; any other field is stored encoded.
   */
  lemma FlattenContents(n: PathNode, dumps: Dumps)
    ensures Flatten(n, dumps).Keys == FieldNames + n.tags.Keys
    ensures forall k :: k in n.tags ==> Flatten(n, dumps)[k] == n.tags[k]
    ensures forall f :: f in FieldNames && f !in n.tags ==> Flatten(n, dumps)[f] == Encode(FieldMap(n)[f], dumps)
  {
    EncodedUnrolled(n, dumps);
    NamesDistinct();
  }

  /** The loop's six updates, one per field in order. */
  lemma EncodedUnrolled(n: PathNode, dumps: Dumps)
    ensures EncodeFields(FieldPairs(n), dumps) == map[]["id" := Encode(Int(n.id), dumps)]["graph" := Encode(Str(n.graph), dumps)]
      ["level" := Encode(n.level, dumps)]["lat" := Encode(Real(n.lat), dumps)]["lon" := Encode(Real(n.lon), dumps)]
      ["poly_id" := Encode(Int(n.polyId), dumps)]
  {
    var fs := FieldPairs(n);
    assert fs[..6] == fs;
    assert fs[..6][..5] == fs[..5] && fs[..5][..4] == fs[..4] && fs[..4][..3] == fs[..3];
    assert fs[..3][..2] == fs[..2] && fs[..2][..1] == fs[..1] && fs[..1][..0] == fs[..0];
    assert EncodeFields(fs[..1], dumps) == map[]["id" := Encode(Int(n.id), dumps)];
    assert EncodeFields(fs[..2], dumps) == EncodeFields(fs[..1], dumps)["graph" := Encode(Str(n.graph), dumps)];
    assert EncodeFields(fs[..3], dumps) == EncodeFields(fs[..2], dumps)["level" := Encode(n.level, dumps)];
    assert EncodeFields(fs[..4], dumps) == EncodeFields(fs[..3], dumps)["lat" := Encode(Real(n.lat), dumps)];
    assert EncodeFields(fs[..5], dumps) == EncodeFields(fs[..4], dumps)["lon" := Encode(Real(n.lon), dumps)];
  }

  /** With no tag named like a field, each field is stored encoded under its own name. */
  lemma FlattenedFields(n: PathNode, dumps: Dumps)
    requires FieldNames !! n.tags.Keys
    ensures Rebuildable(Flatten(n, dumps))
    ensures Flatten(n, dumps)["id"] == Int(n.id) && Flatten(n, dumps)["graph"] == Encode(Str(n.graph), dumps)
    ensures Flatten(n, dumps)["level"] == Encode(n.level, dumps) && Flatten(n, dumps)["lat"] == Real(n.lat)
    ensures Flatten(n, dumps)["lon"] == Real(n.lon) && Flatten(n, dumps)["poly_id"] == Int(n.polyId)
  {
    FlattenContents(n, dumps);
  }

  /** With distinct names, the loop stores each field, encoded, under its own name and nothing else. */
  lemma {:induction false} EncodeDistinct(fields: seq<(string, Value)>, dumps: Dumps)
    requires forall i, j :: 0 <= i < j < |fields| ==> fields[i].0 != fields[j].0
    ensures forall k :: k in EncodeFields(fields, dumps) <==> exists i :: 0 <= i < |fields| && fields[i].0 == k
    ensures forall i :: 0 <= i < |fields| ==> EncodeFields(fields, dumps)[fields[i].0] == Encode(fields[i].1, dumps)
    decreases |fields|
  {
    if |fields| > 0 {
      var init := fields[..|fields| - 1];
      EncodeDistinct(init, dumps);
      forall k | k in EncodeFields(fields, dumps) ensures exists i :: 0 <= i < |fields| && fields[i].0 == k {
        if k != fields[|fields| - 1].0 {
          var i :| 0 <= i < |init| && init[i].0 == k;
          assert fields[i] == init[i];
        }
      }
      forall i | 0 <= i < |fields| - 1
        ensures fields[i].0 in EncodeFields(fields, dumps)
        ensures EncodeFields(fields, dumps)[fields[i].0] == Encode(fields[i].1, dumps)
      {
        assert fields[i] == init[i];
        assert init[i].0 in EncodeFields(init, dumps);
        assert fields[i].0 != fields[|fields| - 1].0;
      }
    }
  }

  /** What `__deserialise_list` reads: the text after the first ':' of a marked string is what follows the marker. */
  lemma MarkerPayload(s: string)
    requires StartsWith(s, Marker)
    ensures Contains(s, ":") && AfterFirst(s, ":") == s[|Marker|..]
  {
    assert s[10..11] == s[..|Marker|][10..11];
    assert OccursAt(s, ":", 10);
    forall j | 0 <= j < 10 ensures !OccursAt(s, ":", j) {
      assert s[j] == s[..|Marker|][j] == Marker[j];
      assert s[j..j + 1][0] == s[j];
    }
  }

  /** `__serialise_list` then `__deserialise_list` hands `json.loads` exactly what `json.dumps` produced. */
  lemma SerialisedPayload(items: seq<Value>, dumps: Dumps)
    ensures StartsWith(Marker + dumps(items), Marker)
    ensures Contains(Marker + dumps(items), ":") && AfterFirst(Marker + dumps(items), ":") == dumps(items)
  {
    var s := Marker + dumps(items);
    assert s[..|Marker|] == Marker;
    MarkerPayload(s);
    assert s[|Marker|..] == dumps(items);
  }

  /** One stored value as the rebuilding loop turns it back: a marked string is deserialised, "" becomes `None`. */
  function Decode(v: Value, loads: Loads): Value {
    if v.Str? && StartsWith(v.s, Marker) then
      MarkerPayload(v.s);
      loads(AfterFirst(v.s, ":"))
    else if v == Str("") then Null
    else v
  }

  /** The keyword arguments `PathNode(**kwargs)` receives: its fields and its `tags`. */
  datatype NodeRecord = NodeRecord(fields: map<string, Value>, tags: Tags)

  /** Every field can be read (`dictionary[field]` raises no `KeyError`). */
  predicate Rebuildable(d: FlatDict) {
    FieldNames <= d.Keys
  }

  /** `{field: dictionary[field] for field in fields}`: each field read from the dict, undecoded. */
  function FieldsRead(d: FlatDict): map<string, Value>
    requires Rebuildable(d)
  {
    map["id" := d["id"], "graph" := d["graph"], "level" := d["level"],
        "lat" := d["lat"], "lon" := d["lon"], "poly_id" := d["poly_id"]]
  }

  /** The keyword arguments once the rebuilding loop has decoded the first `i` fields. */
  function Kwargs(d: FlatDict, loads: Loads, i: nat): map<string, Value>
    requires Rebuildable(d) && i <= |NodeFields|
  {
    if i == 0 then FieldsRead(d)
    else Kwargs(d, loads, i - 1)[NodeFields[i - 1] := Decode(d[NodeFields[i - 1]], loads)]
  }

  /** The record `__flat_dict_to_dataclass` builds: fields decoded, every other attribute a tag, undecoded. */
  function Unflattened(d: FlatDict, loads: Loads): NodeRecord
    requires Rebuildable(d)
  {
    NodeRecord(Kwargs(d, loads, |NodeFields|), d - FieldNames)
  }

  /** The rebuilt record holds exactly the fields, each decoded, and every other attribute as a tag. */
  lemma UnflattenedContents(d: FlatDict, loads: Loads)
    requires Rebuildable(d)
    ensures Unflattened(d, loads).fields.Keys == FieldNames
    ensures forall f :: f in FieldNames ==> Unflattened(d, loads).fields[f] == Decode(d[f], loads)
    ensures Unflattened(d, loads).tags.Keys == d.Keys - FieldNames
    ensures forall k :: k in Unflattened(d, loads).tags ==> Unflattened(d, loads).tags[k] == d[k]
  {
    var fs := Kwargs(d, loads, 6);
    assert fs == Kwargs(d, loads, 5)["poly_id" := Decode(d["poly_id"], loads)];
    assert Kwargs(d, loads, 5) == Kwargs(d, loads, 4)["lon" := Decode(d["lon"], loads)];
    assert Kwargs(d, loads, 4) == Kwargs(d, loads, 3)["lat" := Decode(d["lat"], loads)];
    assert Kwargs(d, loads, 3) == Kwargs(d, loads, 2)["level" := Decode(d["level"], loads)];
    assert Kwargs(d, loads, 2) == Kwargs(d, loads, 1)["graph" := Decode(d["graph"], loads)];
    assert Kwargs(d, loads, 1) == FieldsRead(d)["id" := Decode(d["id"], loads)];
  }

  /** The loop's six updates, one per field in order. */
  lemma KwargsUnrolled(d: FlatDict, loads: Loads)
    requires Rebuildable(d)
    ensures Kwargs(d, loads, |NodeFields|) == FieldsRead(d)["id" := Decode(d["id"], loads)]["graph" := Decode(d["graph"], loads)]
      ["level" := Decode(d["level"], loads)]["lat" := Decode(d["lat"], loads)]["lon" := Decode(d["lon"], loads)]
      ["poly_id" := Decode(d["poly_id"], loads)]
  {
    assert Kwargs(d, loads, 6) == Kwargs(d, loads, 5)["poly_id" := Decode(d["poly_id"], loads)];
    assert Kwargs(d, loads, 5) == Kwargs(d, loads, 4)["lon" := Decode(d["lon"], loads)];
    assert Kwargs(d, loads, 4) == Kwargs(d, loads, 3)["lat" := Decode(d["lat"], loads)];
    assert Kwargs(d, loads, 3) == Kwargs(d, loads, 2)["level" := Decode(d["level"], loads)];
    assert Kwargs(d, loads, 2) == Kwargs(d, loads, 1)["graph" := Decode(d["graph"], loads)];
  }

  /** `{k: dictionary[k] for k in fields ^ dictionary.keys()}` when every field is a key: the other attributes. */
  lemma TagsRest(d: FlatDict)
    requires Rebuildable(d)
    ensures (map k | k in d.Keys - FieldNames :: d[k]) == d - FieldNames
  {
  }

  /** A field the loop has not reached yet still holds what was read from the dict. */
  lemma {:induction false} KwargsPending(d: FlatDict, loads: Loads, i: nat, j: nat)
    requires Rebuildable(d) && j <= i < |NodeFields|
    ensures NodeFields[i] in Kwargs(d, loads, j) && Kwargs(d, loads, j)[NodeFields[i]] == d[NodeFields[i]]
    decreases j
  {
    FieldNamesListed();
    if j > 0 {
      KwargsPending(d, loads, i, j - 1);
    }
  }

  /**
   * One turn of the rebuilding loop: the field it reaches still holds what was read,
   * and a value that decodes to itself is left as it is.
   */
  lemma KwargsStep(d: FlatDict, loads: Loads, i: nat)
    requires Rebuildable(d) && i < |NodeFields|
    ensures NodeFields[i] in Kwargs(d, loads, i) && Kwargs(d, loads, i)[NodeFields[i]] == d[NodeFields[i]]
    ensures Decode(d[NodeFields[i]], loads) == d[NodeFields[i]] ==> Kwargs(d, loads, i + 1) == Kwargs(d, loads, i)
  {
    KwargsPending(d, loads, i, i);
  }

  /** `__flat_dict_to_dataclass(dictionary, PathNode)`, up to the constructor call. */
  method FlatDictToDataclass(d: FlatDict, loads: Loads) returns (r: NodeRecord)
    requires Rebuildable(d)
    ensures r == Unflattened(d, loads)
  {
    var kwargs := FieldsRead(d);
    var tags := map k | k in d.Keys - FieldNames :: d[k];
    for i := 0 to |NodeFields|
      invariant kwargs == Kwargs(d, loads, i)
    {
      var key := NodeFields[i];
      KwargsStep(d, loads, i);
      var value := kwargs[key];
      if value.Str? && StartsWith(value.s, Marker) {
        MarkerPayload(value.s);
        kwargs := kwargs[key := loads(AfterFirst(value.s, ":"))];
      } else if value == Str("") {
        kwargs := kwargs[key := Null];
      }
    }
    TagsRest(d);
    r := NodeRecord(kwargs, tags);
  }

  /** A string that is stored and read back unchanged: neither "" nor marked. */
  predicate Plain(s: string) {
    s != "" && !StartsWith(s, Marker)
  }

  /**
   * A node the flat storage gives back unchanged: no tag is named like a field, the
   * graph name and a string level are plain, and a list level survives JSON.
   */
  predicate RoundTrips(n: PathNode, dumps: Dumps, loads: Loads) {
    FieldNames !! n.tags.Keys
    && Plain(n.graph)
    && (n.level.Str? ==> Plain(n.level.s))
    && (n.level.List? ==> loads(dumps(n.level.items)) == n.level)
  }

  /** A value that is neither "" nor marked, nor a list that JSON changes, is decoded back to itself. */
  lemma DecodeEncode(v: Value, dumps: Dumps, loads: Loads)
    requires v.Str? ==> Plain(v.s)
    requires v.List? ==> loads(dumps(v.items)) == v
    ensures Decode(Encode(v, dumps), loads) == v
  {
    if v.List? {
      SerialisedPayload(v.items, dumps);
    }
  }

  /** Storing a node and rebuilding it gives back its fields. */
  lemma RoundTripFields(n: PathNode, dumps: Dumps, loads: Loads)
    requires RoundTrips(n, dumps, loads)
    ensures Rebuildable(Flatten(n, dumps))
    ensures Unflattened(Flatten(n, dumps), loads).fields == FieldMap(n)
  {
    FlattenedFields(n, dumps);
    var d := Flatten(n, dumps);
    KwargsUnrolled(d, loads);
    DecodeEncode(Str(n.graph), dumps, loads);
    DecodeEncode(n.level, dumps, loads);
    NamesDistinct();
  }

  /** Storing a node and rebuilding it gives back its tags. */
  lemma RoundTripTags(n: PathNode, dumps: Dumps, loads: Loads)
    requires FieldNames !! n.tags.Keys
    ensures Rebuildable(Flatten(n, dumps))
    ensures Unflattened(Flatten(n, dumps), loads).tags == n.tags
  {
    FlattenContents(n, dumps);
  }

  /** Storing a node and rebuilding it gives back its fields and its tags. */
  lemma RoundTrip(n: PathNode, dumps: Dumps, loads: Loads)
    requires RoundTrips(n, dumps, loads)
    ensures Rebuildable(Flatten(n, dumps))
    ensures Unflattened(Flatten(n, dumps), loads) == NodeRecord(FieldMap(n), n.tags)
  {
    RoundTripFields(n, dumps, loads);
    RoundTripTags(n, dumps, loads);
  }

  /** The storage is lossy: an empty graph name comes back as `None`. */
  lemma EmptyGraphLost(n: PathNode, dumps: Dumps, loads: Loads)
    requires n.graph == "" && "graph" !in n.tags
    ensures Rebuildable(Flatten(n, dumps)) && Unflattened(Flatten(n, dumps), loads).fields.Keys == FieldNames
    ensures Unflattened(Flatten(n, dumps), loads).fields["graph"] == Null
  {
    FlattenContents(n, dumps);
    UnflattenedContents(Flatten(n, dumps), loads);
  }

  /** A tag named like a field replaces that field, and is no longer a tag, when the node is rebuilt. */
  lemma TagShadowsField(n: PathNode, dumps: Dumps, loads: Loads, f: string)
    requires f in FieldNames && f in n.tags
    ensures Rebuildable(Flatten(n, dumps)) && Unflattened(Flatten(n, dumps), loads).fields.Keys == FieldNames
    ensures Unflattened(Flatten(n, dumps), loads).fields[f] == Decode(n.tags[f], loads)
    ensures f !in Unflattened(Flatten(n, dumps), loads).tags
  {
    FlattenContents(n, dumps);
    UnflattenedContents(Flatten(n, dumps), loads);
  }

  // ---------------------------------------------------------------------------
  // The A* heuristic
  // ---------------------------------------------------------------------------

  /** The record has a numeric position and a hashable polygon id. */
  predicate Placed(r: NodeRecord) {
    "lat" in r.fields && "lon" in r.fields && "poly_id" in r.fields
    && Numeric(r.fields["lat"]).Some? && Numeric(r.fields["lon"]).Some? && !r.fields["poly_id"].List?
  }

  /** `shapely.geometry.Point(node.lat, node.lon)`. */
  function Position(r: NodeRecord): LatLon
    requires Placed(r)
  {
    (Numeric(r.fields["lat"]).value, Numeric(r.fields["lon"]).value)
  }

  /** The integer key a value finds in an int-keyed dict (`True` is 1, `2.0` is 2); `None` where it finds none. */
  function PolyKey(v: Value): (k: Option<int>)
    ensures v.Int? ==> k == Some(v.i)
    ensures v.Null? || v.Str? ==> k.None?
  {
    match v
    case Int(i) => Some(i)
    case Bool(b) => Some(if b then 1 else 0)
    case Real(r) => if r.Floor as real == r then Some(r.Floor) else None
    case _ => None
  }

  /** The polygon a record's `poly_id` finds in the lookup. */
  function PolyOf(r: NodeRecord, lookup: map<int, Polygon>): Option<Polygon>
    requires Placed(r)
  {
    var k := PolyKey(r.fields["poly_id"]);
    if k.Some? && k.value in lookup then Some(lookup[k.value]) else None
  }

  /** `tags["indoor"] == "room"`, when the tag is present. */
  predicate IsRoom(p: Polygon) {
    "indoor" in p.tags && p.tags["indoor"] == Str("room")
  }

  /**
   * The room penalty as written: both polygons are found, and the `or` completes with
   * true. A missing "indoor" tag on the first polygon raises `KeyError` before the
   * second polygon is looked at, and the `except` drops the penalty.
   */
  predicate Penalised(rn: NodeRecord, rm: NodeRecord, lookup: map<int, Polygon>)
    requires Placed(rn) && Placed(rm)
  {
    var pn, pm := PolyOf(rn, lookup), PolyOf(rm, lookup);
    pn.Some? && pm.Some? && "indoor" in pn.value.tags
    && (IsRoom(pn.value) || IsRoom(pm.value))
  }

  /** `__heuristic(n, m)` on the rebuilt records. */
  function HeuristicOf(rn: NodeRecord, rm: NodeRecord, lookup: map<int, Polygon>, distance: Distance): real
    requires Placed(rn) && Placed(rm)
  {
    distance(Position(rn), Position(rm)) + if Penalised(rn, rm, lookup) then 10000.0 else 0.0
  }

  /**
   * On stored path nodes the heuristic is the distance between their positions, plus
   * 10000 when both polygon ids are known, the first polygon has an "indoor" tag and one
   * of the two polygons is a room.
   */
  lemma HeuristicOnNodes(n: PathNode, m: PathNode, lookup: map<int, Polygon>, distance: Distance, dumps: Dumps, loads: Loads)
    requires RoundTrips(n, dumps, loads) && RoundTrips(m, dumps, loads)
    ensures Rebuildable(Flatten(n, dumps)) && Rebuildable(Flatten(m, dumps))
    ensures Placed(Unflattened(Flatten(n, dumps), loads)) && Placed(Unflattened(Flatten(m, dumps), loads))
    ensures HeuristicOf(Unflattened(Flatten(n, dumps), loads), Unflattened(Flatten(m, dumps), loads), lookup, distance)
      == distance((n.lat, n.lon), (m.lat, m.lon))
         + if n.polyId in lookup && m.polyId in lookup && "indoor" in lookup[n.polyId].tags
              && (IsRoom(lookup[n.polyId]) || IsRoom(lookup[m.polyId]))
           then 10000.0 else 0.0
  {
    RoundTrip(n, dumps, loads);
    RoundTrip(m, dumps, loads);
  }

  /** The penalty as evidently intended: both polygons are found and either of them is a room. */
  predicate PenalisedEither(rn: NodeRecord, rm: NodeRecord, lookup: map<int, Polygon>)
    requires Placed(rn) && Placed(rm)
  {
    var pn, pm := PolyOf(rn, lookup), PolyOf(rm, lookup);
    pn.Some? && pm.Some? && (IsRoom(pn.value) || IsRoom(pm.value))
  }

  /**
   * The intended penalty does not depend on the order of the two nodes, and differs from
   * the written one exactly when the first polygon has no "indoor" tag and the second is a room.
   */
  lemma PenalisedEitherSymmetric(rn: NodeRecord, rm: NodeRecord, lookup: map<int, Polygon>)
    requires Placed(rn) && Placed(rm)
    ensures PenalisedEither(rn, rm, lookup) == PenalisedEither(rm, rn, lookup)
    ensures Penalised(rn, rm, lookup) ==> PenalisedEither(rn, rm, lookup)
    ensures PenalisedEither(rn, rm, lookup) && !Penalised(rn, rm, lookup) <==>
      PolyOf(rn, lookup).Some? && PolyOf(rm, lookup).Some?
      && "indoor" !in PolyOf(rn, lookup).value.tags && IsRoom(PolyOf(rm, lookup).value)
  {
  }

  /** A node in polygon 1 with no "indoor" tag and one in room polygon 2: the penalty depends on which comes first. */
  lemma PenaltyDependsOnOrder()
    ensures var rn := NodeRecord(map["lat" := Real(0.0), "lon" := Real(0.0), "poly_id" := Int(1)], map[]);
            var rm := NodeRecord(map["lat" := Real(0.0), "lon" := Real(0.0), "poly_id" := Int(2)], map[]);
            var lookup := map[1 := Polygon(1, Null, Null, [], (0.0, 0.0), (0.0, 0.0), map[]),
                              2 := Polygon(2, Null, Null, [], (0.0, 0.0), (0.0, 0.0), map["indoor" := Str("room")])];
            !Penalised(rn, rm, lookup) && Penalised(rm, rn, lookup)
  {
  }

  // ---------------------------------------------------------------------------
  // Turn directions
  // ---------------------------------------------------------------------------

  function Sub(a: LatLon, b: LatLon): LatLon {
    (a.0 - b.0, a.1 - b.1)
  }

  const Zero: LatLon := (0.0, 0.0)

  /**
   * The vectors `__angle_to` compares are not zero: `math.hypot` of neither vanishes, so
   * the division raises no `ZeroDivisionError`.
   */
  predicate Turnable(pn: LatLon, pm: LatLon, po: LatLon) {
    Sub(pn, pm) != Zero && Sub(pm, po) != Zero
  }

  /** `__angle_to(n, m, o)` as written: the angle between `n - m` and `m - o`. */
  function Angle(pn: LatLon, pm: LatLon, po: LatLon, between: VectorAngle): real
    requires Turnable(pn, pm, po)
  {
    between(Sub(pn, pm), Sub(pm, po))
  }

  /** `__direction_to`'s classification of an angle. */
  function Direction(angle: real): string {
    if 135.0 <= angle <= 225.0 then "Forward"
    else if 45.0 <= angle <= 225.0 then "Left"
    else if 225.0 <= angle <= 315.0 then "Right"
    else "Reverse"
  }

  /** The four bands: [135, 225] forward, [45, 135) left, (225, 315] right, everything else reverse. */
  lemma DirectionBands(angle: real)
    ensures Direction(angle) == "Forward" <==> 135.0 <= angle <= 225.0
    ensures Direction(angle) == "Left" <==> 45.0 <= angle < 135.0
    ensures Direction(angle) == "Right" <==> 225.0 < angle <= 315.0
    ensures Direction(angle) == "Reverse" <==> angle < 45.0 || 315.0 < angle
  {
  }

  /** An arc cosine lies in [0, 180] degrees, so "Right" is never produced. */
  lemma NeverRight(angle: real)
    requires 0.0 <= angle <= 180.0
    ensures Direction(angle) != "Right"
  {
  }

  function Opposite(v: LatLon): LatLon {
    (-v.0, -v.1)
  }

  /**
   * What the arc cosine gives for parallel vectors: 0 degrees between a vector and
   * itself, 180 degrees between a vector and its opposite.
   */
  ghost predicate ParallelAngles(between: VectorAngle) {
    (forall v :: v != Zero ==> between(v, v) == 0.0)
    && (forall v :: v != Zero ==> between(v, Opposite(v)) == 180.0)
  }

  /** As written, walking straight on through `m` (equal steps) reads as an angle of 0 and so as "Reverse". */
  lemma StraightOnIsReverse(pn: LatLon, pm: LatLon, po: LatLon, between: VectorAngle)
    requires Sub(pm, pn) == Sub(po, pm) != Zero && ParallelAngles(between)
    ensures Turnable(pn, pm, po)
    ensures Direction(Angle(pn, pm, po, between)) == "Reverse"
  {
    assert Sub(pm, po) == Sub(pn, pm);
    assert between(Sub(pn, pm), Sub(pn, pm)) == 0.0;
  }

  /** The corrected angle's vectors are not zero. */
  predicate TurnableCorrected(pn: LatLon, pm: LatLon, po: LatLon) {
    Sub(pn, pm) != Zero && Sub(po, pm) != Zero
  }

  /** The evidently intended angle: between `n - m` and `o - m`, which is 180 degrees for a straight path. */
  function AngleCorrected(pn: LatLon, pm: LatLon, po: LatLon, between: VectorAngle): real
    requires TurnableCorrected(pn, pm, po)
  {
    between(Sub(pn, pm), Sub(po, pm))
  }

  /** With the corrected angle, straight on is "Forward" and turning back on oneself is "Reverse". */
  lemma StraightOnIsForward(pn: LatLon, pm: LatLon, po: LatLon, between: VectorAngle)
    requires TurnableCorrected(pn, pm, po) && ParallelAngles(between)
    ensures Sub(pm, pn) == Sub(po, pm) ==> Direction(AngleCorrected(pn, pm, po, between)) == "Forward"
    ensures po == pn ==> Direction(AngleCorrected(pn, pm, po, between)) == "Reverse"
  {
    if Sub(pm, pn) == Sub(po, pm) {
      assert Sub(po, pm) == Opposite(Sub(pn, pm));
    }
  }

  /** The z-component of the cross product: its sign says to which side `b` lies of `a`. */
  function Cross(a: LatLon, b: LatLon): real {
    a.0 * b.1 - a.1 * b.0
  }

  /** `v` turned a quarter turn. */
  function Quarter(v: LatLon): LatLon {
    (-v.1, v.0)
  }

  /**
   * The evidently intended full-circle angle for `__direction_to`'s bands, which run to
   * 315 degrees: the angle between `n - m` and `o - m`, measured the other way round
   * (360 less it) when `o - m` lies on the negative side of `n - m`.
   */
  function TurnAngle(pn: LatLon, pm: LatLon, po: LatLon, between: VectorAngle): (angle: real)
    requires TurnableCorrected(pn, pm, po)
    ensures Cross(Sub(pn, pm), Sub(po, pm)) >= 0.0 ==> angle == AngleCorrected(pn, pm, po, between)
    ensures Cross(Sub(pn, pm), Sub(po, pm)) < 0.0 ==> angle == 360.0 - AngleCorrected(pn, pm, po, between)
  {
    var a, b := Sub(pn, pm), Sub(po, pm);
    if Cross(a, b) >= 0.0 then between(a, b) else 360.0 - between(a, b)
  }

  /** What the arc cosine gives for perpendicular vectors: 90 degrees. */
  ghost predicate RightAngles(between: VectorAngle) {
    (forall v :: v != Zero ==> between(v, Quarter(v)) == 90.0)
    && (forall v :: v != Zero ==> between(v, Opposite(Quarter(v))) == 90.0)
  }

  /**
   * With the full-circle angle every band can be reached: a quarter turn one way is
   * "Left", the mirror-image turn the other way is "Right", and straight on stays "Forward".
   */
  lemma QuarterTurns(pn: LatLon, pm: LatLon, between: VectorAngle)
    requires Sub(pn, pm) != Zero && RightAngles(between) && ParallelAngles(between)
    ensures var a := Sub(pn, pm);
      var left := (pm.0 + Quarter(a).0, pm.1 + Quarter(a).1);
      var right := (pm.0 - Quarter(a).0, pm.1 - Quarter(a).1);
      var ahead := (pm.0 - a.0, pm.1 - a.1);
      && TurnableCorrected(pn, pm, left) && Direction(TurnAngle(pn, pm, left, between)) == "Left"
      && TurnableCorrected(pn, pm, right) && Direction(TurnAngle(pn, pm, right, between)) == "Right"
      && TurnableCorrected(pn, pm, ahead) && Direction(TurnAngle(pn, pm, ahead, between)) == "Forward"
  {
    var a := Sub(pn, pm);
    var left := (pm.0 + Quarter(a).0, pm.1 + Quarter(a).1);
    var right := (pm.0 - Quarter(a).0, pm.1 - Quarter(a).1);
    var ahead := (pm.0 - a.0, pm.1 - a.1);
    assert Sub(left, pm) == Quarter(a) && Cross(a, Quarter(a)) == a.0 * a.0 + a.1 * a.1 > 0.0;
    assert Sub(right, pm) == Opposite(Quarter(a)) && Cross(a, Opposite(Quarter(a))) == -(a.0 * a.0 + a.1 * a.1) < 0.0;
    assert Sub(ahead, pm) == Opposite(a) && Cross(a, Opposite(a)) == 0.0;
  }

  // ---------------------------------------------------------------------------
  // Instructions, three nodes at a time
  // ---------------------------------------------------------------------------

  datatype Triple = Triple(n: int, m: int, o: int)

  /**
   * The triples the `for _ in path` loop pops from `p`: the list iterator, at index `it`,
   * stops once `it` reaches the shrinking list's length, and the body stops below three nodes.
   */
  function Processed(p: seq<int>, it: nat): (r: seq<Triple>)
    ensures 3 * |r| <= |p|
    decreases |p|
  {
    if it < |p| && |p| >= 3 then [Triple(p[0], p[1], p[2])] + Processed(p[3..], it + 1) else []
  }

  /** The loop pops from the front: its `k`-th triple is nodes `3k`, `3k+1` and `3k+2` of `p`. */
  lemma {:induction false} ProcessedFront(p: seq<int>, it: nat)
    ensures forall k :: 0 <= k < |Processed(p, it)| ==>
      Processed(p, it)[k] == Triple(p[3 * k], p[3 * k + 1], p[3 * k + 2])
    decreases |p|
  {
    if it < |p| && |p| >= 3 {
      ProcessedFront(p[3..], it + 1);
      var r := Processed(p, it);
      forall k | 1 <= k < |r| ensures r[k] == Triple(p[3 * k], p[3 * k + 1], p[3 * k + 2]) {
        assert r[k] == Processed(p[3..], it + 1)[k - 1];
      }
    }
  }

  /** The triples `generate_instructions` turns into directions: the first three nodes, then the loop's. */
  function TriplesAsWritten(path: seq<int>): seq<Triple>
    requires |path| >= 3
  {
    [Triple(path[0], path[1], path[2])] + Processed(path[3..], 0)
  }

  /** Every complete triple of the path, in order: what the instructions evidently mean to cover. */
  function AllTriples(p: seq<int>): seq<Triple>
    decreases |p|
  {
    if |p| >= 3 then [Triple(p[0], p[1], p[2])] + AllTriples(p[3..]) else []
  }

  /** One pass of the loop: the triple it pops is the next one, and what is left matches. */
  lemma PopStep(path: seq<int>, p: seq<int>, it: nat, c: nat)
    requires |path| >= 3 && 1 <= c && 3 * c <= |path| && p == path[3 * c..]
    requires c <= |TriplesAsWritten(path)| && Processed(p, it) == TriplesAsWritten(path)[c..]
    requires it < |p| && |p| >= 3
    ensures c < |TriplesAsWritten(path)| && TriplesAsWritten(path)[c] == Triple(p[0], p[1], p[2])
    ensures p[3..] == path[3 * (c + 1)..]
    ensures Processed(p[3..], it + 1) == TriplesAsWritten(path)[c + 1..]
  {
    var all := TriplesAsWritten(path);
    assert Processed(p, it) == [Triple(p[0], p[1], p[2])] + Processed(p[3..], it + 1);
    SuffixCons(all, c);
    SuffixDrop(path, 3 * c, 3);
  }

  function Min(a: int, b: int): int {
    if a <= b then a else b
  }

  /** The number of `j >= 0` with `4 * j < x`. */
  function CeilQuarter(x: int): nat {
    if x <= 0 then 0 else (x + 3) / 4
  }

  /** The loop pops as many triples as both the iterator and the list length allow. */
  lemma {:induction false} ProcessedCount(p: seq<int>, it: nat)
    ensures |Processed(p, it)| == Min(CeilQuarter(|p| - it), |p| / 3)
    decreases |p|
  {
    if it < |p| && |p| >= 3 {
      ProcessedCount(p[3..], it + 1);
    }
  }

  /** The corrected reading covers every complete triple: `|path| / 3` of them, each in place. */
  lemma {:induction false} AllTriplesCount(p: seq<int>)
    ensures |AllTriples(p)| == |p| / 3
    ensures forall k :: 0 <= k < |p| / 3 ==> AllTriples(p)[k] == Triple(p[3 * k], p[3 * k + 1], p[3 * k + 2])
    decreases |p|
  {
    if |p| >= 3 {
      AllTriplesCount(p[3..]);
      var r := AllTriples(p);
      forall k | 1 <= k < |p| / 3 ensures r[k] == Triple(p[3 * k], p[3 * k + 1], p[3 * k + 2]) {
        assert r[k] == AllTriples(p[3..])[k - 1];
      }
    }
  }

  /** The written loop covers a prefix of the triples, all of them when the iterator does not run out first. */
  lemma WrittenIsPrefix(path: seq<int>)
    requires |path| >= 3
    ensures |TriplesAsWritten(path)| <= |path| / 3 == |AllTriples(path)|
    ensures TriplesAsWritten(path) == AllTriples(path)[..|TriplesAsWritten(path)|]
    ensures |TriplesAsWritten(path)| == |path| / 3 <==> CeilQuarter(|path| - 3) >= (|path| - 3) / 3
  {
    ProcessedCount(path[3..], 0);
    ProcessedFront(path[3..], 0);
    AllTriplesCount(path);
    var w := TriplesAsWritten(path);
    forall k | 0 <= k < |w| ensures w[k] == AllTriples(path)[k] {
      if k > 0 {
        assert w[k] == Processed(path[3..], 0)[k - 1];
      }
    }
  }

  /** A 15-node path: the written loop stops after four triples, though five are complete. */
  lemma FifteenNodesDropTriple(path: seq<int>)
    requires |path| == 15
    ensures |TriplesAsWritten(path)| == 4 && |AllTriples(path)| == 5
  {
    ProcessedCount(path[3..], 0);
    AllTriplesCount(path);
  }

  /** Every path of three to fourteen nodes has all its triples covered. */
  lemma ShortPathsComplete(path: seq<int>)
    requires 3 <= |path| <= 14
    ensures TriplesAsWritten(path) == AllTriples(path)
  {
    WrittenIsPrefix(path);
    AllTriplesCount(path);
  }

  // ---------------------------------------------------------------------------
  // The router
  // ---------------------------------------------------------------------------

  /** `add_nodes_from`: a node's attributes are merged into those it already has. */
  function AddNodes(g: map<int, FlatDict>, tuples: seq<(int, FlatDict)>): map<int, FlatDict>
    decreases |tuples|
  {
    if |tuples| == 0 then g
    else
      var prev := AddNodes(g, tuples[..|tuples| - 1]);
      var t := tuples[|tuples| - 1];
      prev[t.0 := if t.0 in prev then prev[t.0] + t.1 else t.1]
  }

  /** `add_edges_from`: an endpoint that is not yet a node becomes one with no attributes. */
  function AddEdges(g: map<int, FlatDict>, edges: seq<(int, int)>): map<int, FlatDict>
    decreases |edges|
  {
    if |edges| == 0 then g
    else
      var prev := AddEdges(g, edges[..|edges| - 1]);
      var e := edges[|edges| - 1];
      var withU := if e.0 in prev then prev else prev[e.0 := map[]];
      if e.1 in withU then withU else withU[e.1 := map[]]
  }

  /** The `(id, attributes)` pairs the constructor hands to `add_nodes_from`. */
  function NodeTuples(nodes: seq<PathNode>, dumps: Dumps): seq<(int, FlatDict)> {
    seq(|nodes|, i requires 0 <= i < |nodes| => (nodes[i].id, Flatten(nodes[i], dumps)))
  }

  /** The graph the constructor builds. */
  function GraphOf(nodes: seq<PathNode>, edges: seq<(int, int)>, dumps: Dumps): map<int, FlatDict> {
    AddEdges(AddNodes(map[], NodeTuples(nodes, dumps)), edges)
  }

  predicate UniqueIds(nodes: seq<PathNode>) {
    forall i, j :: 0 <= i < j < |nodes| ==> nodes[i].id != nodes[j].id
  }

  /** Adding edges keeps every node's attributes and adds exactly the missing endpoints, bare. */
  lemma {:induction false} AddEdgesKeeps(g: map<int, FlatDict>, edges: seq<(int, int)>)
    ensures forall k :: k in g ==> k in AddEdges(g, edges) && AddEdges(g, edges)[k] == g[k]
    ensures forall k :: k in AddEdges(g, edges) <==> k in g || exists e :: e in edges && (e.0 == k || e.1 == k)
    ensures forall k :: k in AddEdges(g, edges) && k !in g ==> AddEdges(g, edges)[k] == map[]
    decreases |edges|
  {
    if |edges| > 0 {
      var init := edges[..|edges| - 1];
      AddEdgesKeeps(g, init);
      assert edges == init + [edges[|edges| - 1]];
    }
  }

  /** With distinct ids, `add_nodes_from` stores each node's own attributes under its id, and nothing else. */
  lemma {:induction false} AddNodesDistinct(tuples: seq<(int, FlatDict)>)
    requires forall i, j :: 0 <= i < j < |tuples| ==> tuples[i].0 != tuples[j].0
    ensures forall k :: k in AddNodes(map[], tuples) <==> exists i :: 0 <= i < |tuples| && tuples[i].0 == k
    ensures forall i :: 0 <= i < |tuples| ==> AddNodes(map[], tuples)[tuples[i].0] == tuples[i].1
    decreases |tuples|
  {
    if |tuples| > 0 {
      var init := tuples[..|tuples| - 1];
      AddNodesDistinct(init);
      forall k | k in AddNodes(map[], tuples) ensures exists i :: 0 <= i < |tuples| && tuples[i].0 == k {
        if k != tuples[|tuples| - 1].0 {
          var i :| 0 <= i < |init| && init[i].0 == k;
          assert tuples[i] == init[i];
        }
      }
      forall i | 0 <= i < |tuples| - 1 ensures AddNodes(map[], tuples)[tuples[i].0] == tuples[i].1 {
        assert tuples[i] == init[i];
      }
    }
  }

  /** The routing graph's nodes are the path nodes' ids and the edges' endpoints. */
  lemma GraphKeys(nodes: seq<PathNode>, edges: seq<(int, int)>, dumps: Dumps)
    requires UniqueIds(nodes)
    ensures forall k :: k in GraphOf(nodes, edges, dumps) <==>
      (exists i :: 0 <= i < |nodes| && nodes[i].id == k) || exists e :: e in edges && (e.0 == k || e.1 == k)
  {
    var tuples := NodeTuples(nodes, dumps);
    AddNodesDistinct(tuples);
    AddEdgesKeeps(AddNodes(map[], tuples), edges);
    forall k ensures k in AddNodes(map[], tuples) <==> exists i :: 0 <= i < |nodes| && nodes[i].id == k {
      if k in AddNodes(map[], tuples) {
        var i :| 0 <= i < |tuples| && tuples[i].0 == k;
        assert nodes[i].id == k;
      }
      if exists i :: 0 <= i < |nodes| && nodes[i].id == k {
        var i :| 0 <= i < |nodes| && nodes[i].id == k;
        assert tuples[i].0 == k;
      }
    }
  }

  /** With distinct ids, each path node is stored under its id as its flattened attributes. */
  lemma GraphStoresNodes(nodes: seq<PathNode>, edges: seq<(int, int)>, dumps: Dumps)
    requires UniqueIds(nodes)
    ensures forall i :: 0 <= i < |nodes| ==>
      nodes[i].id in GraphOf(nodes, edges, dumps) && GraphOf(nodes, edges, dumps)[nodes[i].id] == Flatten(nodes[i], dumps)
  {
    var tuples := NodeTuples(nodes, dumps);
    AddNodesDistinct(tuples);
    AddEdgesKeeps(AddNodes(map[], tuples), edges);
    forall i | 0 <= i < |nodes|
      ensures nodes[i].id in AddNodes(map[], tuples) && AddNodes(map[], tuples)[nodes[i].id] == Flatten(nodes[i], dumps)
    {
      assert tuples[i] == (nodes[i].id, Flatten(nodes[i], dumps));
    }
  }

  /** An edge endpoint that is no path node is a node with no attributes. */
  lemma GraphBareEndpoints(nodes: seq<PathNode>, edges: seq<(int, int)>, dumps: Dumps)
    requires UniqueIds(nodes)
    ensures forall k :: (k in GraphOf(nodes, edges, dumps) && forall i :: 0 <= i < |nodes| ==> nodes[i].id != k) ==>
      GraphOf(nodes, edges, dumps)[k] == map[]
  {
    var tuples := NodeTuples(nodes, dumps);
    AddNodesDistinct(tuples);
    AddEdgesKeeps(AddNodes(map[], tuples), edges);
    forall k | k in AddNodes(map[], tuples) ensures exists i :: 0 <= i < |nodes| && nodes[i].id == k {
      var i :| 0 <= i < |tuples| && tuples[i].0 == k;
      assert nodes[i].id == k;
    }
  }

  /** A stored path node is rebuilt with its own fields and tags. */
  lemma StoredNodeRebuilt(nodes: seq<PathNode>, edges: seq<(int, int)>, dumps: Dumps, loads: Loads, i: nat)
    requires UniqueIds(nodes) && i < |nodes| && RoundTrips(nodes[i], dumps, loads)
    ensures nodes[i].id in GraphOf(nodes, edges, dumps) && Rebuildable(GraphOf(nodes, edges, dumps)[nodes[i].id])
    ensures Unflattened(GraphOf(nodes, edges, dumps)[nodes[i].id], loads) == NodeRecord(FieldMap(nodes[i]), nodes[i].tags)
  {
    GraphStoresNodes(nodes, edges, dumps);
    RoundTrip(nodes[i], dumps, loads);
  }

  /** Node `k` is in the graph and its record can be rebuilt and placed. */
  predicate Ready(g: map<int, FlatDict>, k: int, loads: Loads) {
    k in g && Rebuildable(g[k]) && Placed(Unflattened(g[k], loads))
  }

  /** The record node `k` is rebuilt as. */
  function Record(g: map<int, FlatDict>, k: int, loads: Loads): NodeRecord
    requires Ready(g, k, loads)
  {
    Unflattened(g[k], loads)
  }

  /** The three nodes can be rebuilt and the angle at the middle one computed. */
  predicate TurnReady(g: map<int, FlatDict>, t: Triple, loads: Loads) {
    Ready(g, t.n, loads) && Ready(g, t.m, loads) && Ready(g, t.o, loads)
    && Turnable(Position(Record(g, t.n, loads)), Position(Record(g, t.m, loads)), Position(Record(g, t.o, loads)))
  }

  /** `__direction_to(n, m, o)`. */
  function DirectionTo(g: map<int, FlatDict>, t: Triple, loads: Loads, between: VectorAngle): (d: string)
    requires TurnReady(g, t, loads)
    ensures d in {"Forward", "Left", "Right", "Reverse"}
  {
    Direction(Angle(Position(Record(g, t.n, loads)), Position(Record(g, t.m, loads)), Position(Record(g, t.o, loads)), between))
  }

  predicate AllTurnReady(g: map<int, FlatDict>, ts: seq<Triple>, loads: Loads) {
    forall k :: 0 <= k < |ts| ==> TurnReady(g, ts[k], loads)
  }

  /** The direction of each triple, in order. */
  function Directions(g: map<int, FlatDict>, ts: seq<Triple>, loads: Loads, between: VectorAngle): seq<string>
    requires AllTurnReady(g, ts, loads)
  {
    seq(|ts|, k requires 0 <= k < |ts| && AllTurnReady(g, ts, loads) => DirectionTo(g, ts[k], loads, between))
  }

  class Router {
    var nodes: seq<PathNode>
    var edges: seq<(int, int)>
    var lookupPolys: map<int, Polygon>
    var graph: map<int, FlatDict>

    /** `Router(nodes, edges, polys)`: the polygon lookup (a later polygon wins an id) and the routing graph. */
    constructor (nodes: seq<PathNode>, edges: seq<(int, int)>, polys: seq<Polygon>, dumps: Dumps)
      ensures this.nodes == nodes && this.edges == edges
      ensures lookupPolys == PolygonParser.Lookup(polys)
      ensures graph == GraphOf(nodes, edges, dumps)
    {
      this.nodes := nodes;
      this.edges := edges;
      var lookup := PolygonParser.LookupOf(polys);
      lookupPolys := lookup;
      var tuples := [];
      for i := 0 to |nodes|
        invariant |tuples| == i
        invariant forall j :: 0 <= j < i ==> tuples[j] == (nodes[j].id, Flatten(nodes[j], dumps))
      {
        var flat := DataclassToFlatDict(FieldPairs(nodes[i]), nodes[i].tags, dumps);
        tuples := tuples + [(nodes[i].id, flat)];
      }
      assert tuples == NodeTuples(nodes, dumps);
      graph := AddEdges(AddNodes(map[], tuples), edges);
    }

    /** `__heuristic(n, m)`: the distance between the nodes, plus the room penalty. */
    function Heuristic(n: int, m: int, distance: Distance, loads: Loads): (h: real)
      reads this
      requires Ready(graph, n, loads) && Ready(graph, m, loads)
      ensures h == distance(Position(Record(graph, n, loads)), Position(Record(graph, m, loads)))
        || h == distance(Position(Record(graph, n, loads)), Position(Record(graph, m, loads))) + 10000.0
    {
      HeuristicOf(Record(graph, n, loads), Record(graph, m, loads), lookupPolys, distance)
    }

    /** `__direction_to(n, m, o)`, on this router's graph. */
    method DirectionOf(t: Triple, loads: Loads, between: VectorAngle) returns (d: string)
      requires TurnReady(graph, t, loads)
      ensures d == DirectionTo(graph, t, loads, between)
    {
      d := DirectionTo(graph, t, loads, between);
    }

    /**
     * `generate_instructions(path)`: "Forwards" alone for fewer than three nodes, else
     * "Forward" followed by one direction per triple the loop pops; `rest` is what is
     * left of the list it pops from.
     */
    method GenerateInstructions(path: seq<int>, loads: Loads, between: VectorAngle)
      returns (instructions: seq<string>, rest: seq<int>)
      requires |path| >= 3 ==> AllTurnReady(graph, TriplesAsWritten(path), loads)
      ensures |path| < 3 ==> instructions == ["Forwards"] && rest == path
      ensures |path| >= 3 ==> instructions == ["Forward"] + Directions(graph, TriplesAsWritten(path), loads, between)
      ensures |path| >= 3 ==> rest == path[3 * |TriplesAsWritten(path)|..]
    {
      if |path| < 3 {
        return ["Forwards"], path;
      }
      ghost var all := TriplesAsWritten(path);
      ghost var ds := Directions(graph, all, loads, between);
      var p := path[3..];
      assert all[0] == Triple(path[0], path[1], path[2]);
      assert all[1..] == Processed(p, 0);
      var first := DirectionOf(Triple(path[0], path[1], path[2]), loads, between);
      instructions := ["Forward", first];
      ghost var c := 1;
      var it := 0;
      // The iterator's index is not read after the loop, so stopping on a short list
      // before advancing it behaves as Python's `break` after advancing it.
      while it < |p| && |p| >= 3
        invariant 1 <= c <= |all| && 3 * c <= |path|
        invariant p == path[3 * c..]
        invariant Processed(p, it) == all[c..]
        invariant instructions == ["Forward"] + ds[..c]
        decreases |p| - it
      {
        var t := Triple(p[0], p[1], p[2]);
        PopStep(path, p, it, c);
        PrefixSnoc(ds, c);
        it := it + 1;
        p := p[3..];
        var d := DirectionOf(t, loads, between);
        instructions := instructions + [d];
        c := c + 1;
      }
      rest := p;
      assert ds[..|all|] == ds;
    }

    /** `get_path_nodes(path)`: the rebuilt record of each node on the path, in order. */
    method GetPathNodes(path: seq<int>, loads: Loads) returns (records: seq<NodeRecord>)
      requires forall i :: 0 <= i < |path| ==> path[i] in graph && Rebuildable(graph[path[i]])
      ensures |records| == |path|
      ensures forall i :: 0 <= i < |path| ==> records[i] == Unflattened(graph[path[i]], loads)
    {
      records := [];
      for i := 0 to |path|
        invariant |records| == i
        invariant forall j :: 0 <= j < i ==> records[j] == Unflattened(graph[path[j]], loads)
      {
        var r := FlatDictToDataclass(graph[path[i]], loads);
        records := records + [r];
      }
    }
  }
}
