/**
 * The access-point table of the localisation prototype (src/localisation/AP_parser.py):
 * the features of the access-point GeoJSON file become a dictionary from MAC address to
 * the access point's name and position.
 */
module ApParser {
  import opened Wrappers
  import opened Text
  import opened Dicts

  /** One access-point feature, as read from the file: its properties and its point. */
  datatype ApFeature = ApFeature(macAddress: string, apName: string, coordinates: seq<real>)

  /** The stored record `{"ap_name", "lon", "lat"}`. */
  datatype ApData = ApData(apName: string, lon: real, lat: real)

  /** Every feature has a point with at least two coordinates (otherwise `coord[1]` raises). */
  predicate WellFormed(features: seq<ApFeature>) {
    forall i :: 0 <= i < |features| ==> |features[i].coordinates| >= 2
  }

  /** The assignment one feature makes: longitude first, then latitude. */
  function EntryOf(f: ApFeature): (e: (string, ApData))
    requires |f.coordinates| >= 2
    ensures e.0 == f.macAddress && e.1.apName == f.apName
    ensures e.1.lon == f.coordinates[0] && e.1.lat == f.coordinates[1]
  {
    (f.macAddress, ApData(f.apName, f.coordinates[0], f.coordinates[1]))
  }

  function Entries(features: seq<ApFeature>): (es: seq<(string, ApData)>)
    requires WellFormed(features)
    ensures |es| == |features| && forall i :: 0 <= i < |features| ==> es[i] == EntryOf(features[i])
  {
    seq(|features|, i requires 0 <= i < |features| => EntryOf(features[i]))
  }

  /** The first line of `__repr__`. */
  const Header: string := "MAC,ap_name,lon,lat"

  /** One line of `__repr__`; `show` stands for Python's formatting of a number. */
  function RowOf(mac: string, data: ApData, show: real -> string): string {
    mac + "," + data.apName + "," + show(data.lon) + "," + show(data.lat)
  }

  function Rows(d: Dict<string, ApData>, show: real -> string): (rows: seq<string>)
    ensures |rows| == |d| && forall i :: 0 <= i < |d| ==> rows[i] == RowOf(d[i].0, d[i].1, show)
  {
    seq(|d|, i requires 0 <= i < |d| => RowOf(d[i].0, d[i].1, show))
  }

  /** Feature `i` is the last one carrying `mac`. */
  predicate LastWith(features: seq<ApFeature>, i: int, mac: string) {
    0 <= i < |features| && features[i].macAddress == mac
    && forall j :: i < j < |features| ==> features[j].macAddress != mac
  }

  /**
   * A parsed table holds a MAC exactly when the table held it before or some feature
   * carries it; the record is that of the last feature with the MAC, and MACs no feature
   * carries keep their earlier records.
   */
  lemma ApNodesLastWins(before: Dict<string, ApData>, features: seq<ApFeature>, mac: string)
    requires UniqueKeys(before) && WellFormed(features)
    ensures UniqueKeys(PutAll(before, Entries(features)))
    ensures HasKey(PutAll(before, Entries(features)), mac) <==>
      HasKey(before, mac) || exists i :: 0 <= i < |features| && features[i].macAddress == mac
    ensures forall i :: LastWith(features, i, mac) ==>
      HasKey(PutAll(before, Entries(features)), mac) &&
      Get(PutAll(before, Entries(features)), mac) == ApData(features[i].apName, features[i].coordinates[0], features[i].coordinates[1])
    ensures (forall i :: 0 <= i < |features| ==> features[i].macAddress != mac) && HasKey(before, mac) ==>
      Get(PutAll(before, Entries(features)), mac) == Get(before, mac)
  {
    var es := Entries(features);
    PutAllGet(before, es, mac);
    if exists i :: 0 <= i < |features| && features[i].macAddress == mac {
      var i :| 0 <= i < |features| && features[i].macAddress == mac;
      assert es[i].0 == mac;
    }
    forall i | LastWith(features, i, mac)
      ensures LastIndex(es, mac) == Some(i)
    {
      LastIndexIs(es, i, mac);
    }
  }

  /** After the header line, the representation reads back as one line per access point, in dictionary order. */
  lemma ReprLines(d: Dict<string, ApData>, show: real -> string)
    requires forall i :: 0 <= i < |d| ==> Free(RowOf(d[i].0, d[i].1, show), '\n')
    ensures Split(Terminated(Rows(d, show), '\n'), "\n") == Rows(d, show) + [""]
  {
    SplitTerminated(Rows(d, show), '\n');
  }

  class ApTable {
    /** `path`: the file the features are read from. */
    var path: string
    /** `ap_nodes`: MAC address to record, in insertion order. */
    var apNodes: Dict<string, ApData>

    constructor (path: string)
      ensures this.path == path && apNodes == []
    {
      this.path := path;
      apNodes := [];
    }

    /**
     * `parse_ap_nodes`, given the features the file holds: each feature's record is
     * assigned under its MAC; the table is not cleared first.
     */
    method ParseApNodes(features: seq<ApFeature>)
      requires WellFormed(features)
      modifies this
      ensures path == old(path)
      ensures apNodes == PutAll(old(apNodes), Entries(features))
    {
      var es := Entries(features);
      var i := 0;
      while i < |features|
        invariant 0 <= i <= |features| && path == old(path)
        invariant apNodes == PutAll(old(apNodes), es[..i])
      {
        var feature := features[i];
        var coord := feature.coordinates;
        var data := ApData(feature.apName, coord[0], coord[1]);
        assert es[..i + 1][..i] == es[..i];
        apNodes := Put(apNodes, feature.macAddress, data);
        i := i + 1;
      }
      assert es[..|es|] == es;
    }

    /** `__repr__`: the header, then one line per access point, each ended by a newline. */
    method Repr(show: real -> string) returns (out: string)
      ensures out == Header + "\n" + Terminated(Rows(apNodes, show), '\n')
    {
      out := Header + "\n";
      var i := 0;
      while i < |apNodes|
        invariant 0 <= i <= |apNodes|
        invariant out == Header + "\n" + Terminated(Rows(apNodes[..i], show), '\n')
      {
        var (key, value) := apNodes[i];
        var row := key + "," + value.apName + "," + show(value.lon) + "," + show(value.lat);
        assert row == RowOf(apNodes[i].0, apNodes[i].1, show);
        TerminatedAppend(Rows(apNodes[..i], show), row, '\n');
        assert Rows(apNodes[..i + 1], show) == Rows(apNodes[..i], show) + [row];
        out := out + row + "\n";
        i := i + 1;
      }
      assert apNodes[..|apNodes|] == apNodes;
    }
  }
}
