/**
 * The scan matcher of the heuristic-training notebook (`compare_networks` in
 * app/data/heuristic_training.py): each scan's networks are matched against the table of
 * surveyed access points by BSSID without its last character, keeping the first network
 * of each access point on the requested level.
 */
module HeuristicMatching {
  import opened Wrappers
  import opened Text
  import opened Dicts

  /** A pygeodesy `LatLon(lat, lon)`, as a plain pair. */
  datatype LatLon = LatLon(lat: real, lon: real)

  /**
   * A scanned network: the fields the notebook reads or writes. `ssid` is `None` once
   * the "SSID" field is deleted; `coordinates` is `None` until a position is attached.
   */
  datatype Network = Network(bssid: string, rssi: real, ssid: Option<string>, coordinates: Option<LatLon>)

  /** A `node_dict` value: `{"level": int, "coordinates": [...]}`. */
  datatype ApNode = ApNode(level: int, coordinates: seq<real>)

  /** `network['BSSID'][:-1]`: the key the table is indexed by. */
  function Key(n: Network): string {
    DropLast(n.bssid)
  }

  /**
   * The body of the `try` completes for `n`: its key is in the table (no `KeyError`), the
   * entry is on the level, the entry has two coordinates (no `IndexError`) and the network
   * has an "SSID" to delete (no `KeyError`). Any other network is skipped by `except`.
   */
  predicate Usable(n: Network, nodeDict: Dict<string, ApNode>, level: int) {
    HasKey(nodeDict, Key(n)) && Get(nodeDict, Key(n)).level == level
    && |Get(nodeDict, Key(n)).coordinates| >= 2 && n.ssid.Some?
  }

  /**
   * The network as appended: its full "BSSID" and its RSSI kept (only the local `mac` is
   * truncated), the entry's first two coordinates attached, in that order, as
   * `LatLon(lat, lon)`, and the "SSID" field deleted.
   */
  function Tagged(n: Network, nodeDict: Dict<string, ApNode>, level: int): (t: Network)
    requires Usable(n, nodeDict, level)
    ensures t.bssid == n.bssid && Key(t) == Key(n) && t.rssi == n.rssi && t.ssid == None
    ensures t.coordinates == Some(LatLon(Get(nodeDict, Key(n)).coordinates[0], Get(nodeDict, Key(n)).coordinates[1]))
  {
    var c := Get(nodeDict, Key(n)).coordinates;
    n.(ssid := None, coordinates := Some(LatLon(c[0], c[1])))
  }

  /** `any(net for net in common_scan if net["BSSID"][:-1] == mac)`. */
  predicate Seen(common: seq<Network>, mac: string) {
    exists i :: 0 <= i < |common| && Key(common[i]) == mac
  }

  /** `common_scan` after the loop over one scan. */
  function CommonScan(scan: seq<Network>, nodeDict: Dict<string, ApNode>, level: int): seq<Network>
    decreases |scan|
  {
    if |scan| == 0 then []
    else
      var prev := CommonScan(scan[..|scan| - 1], nodeDict, level);
      var n := scan[|scan| - 1];
      if Usable(n, nodeDict, level) && !Seen(prev, Key(n)) then prev + [Tagged(n, nodeDict, level)] else prev
  }

  /** Network `i` is usable and no earlier usable network has its key. */
  predicate FirstUsable(scan: seq<Network>, i: nat, nodeDict: Dict<string, ApNode>, level: int)
    requires i < |scan|
  {
    Usable(scan[i], nodeDict, level)
    && forall j :: 0 <= j < i && Usable(scan[j], nodeDict, level) ==> Key(scan[j]) != Key(scan[i])
  }

  /** Reference definition: the first usable network of each access point among the first `n`, in scan order. */
  function Firsts(scan: seq<Network>, n: nat, nodeDict: Dict<string, ApNode>, level: int): seq<Network>
    requires n <= |scan|
  {
    if n == 0 then []
    else
      var tail := if FirstUsable(scan, n - 1, nodeDict, level) then [Tagged(scan[n - 1], nodeDict, level)] else [];
      Firsts(scan, n - 1, nodeDict, level) + tail
  }

  /** Some usable network of `scan` has key `mac`. */
  predicate HasUsable(scan: seq<Network>, mac: string, nodeDict: Dict<string, ApNode>, level: int) {
    exists j :: 0 <= j < |scan| && Usable(scan[j], nodeDict, level) && Key(scan[j]) == mac
  }

  lemma HasUsableSnoc(init: seq<Network>, n: Network, mac: string, nodeDict: Dict<string, ApNode>, level: int)
    ensures HasUsable(init + [n], mac, nodeDict, level) <==>
      HasUsable(init, mac, nodeDict, level) || (Usable(n, nodeDict, level) && Key(n) == mac)
  {
    var scan := init + [n];
    if HasUsable(scan, mac, nodeDict, level) {
      var j :| 0 <= j < |scan| && Usable(scan[j], nodeDict, level) && Key(scan[j]) == mac;
      if j < |init| {
        assert init[j] == scan[j];
      }
    }
    if HasUsable(init, mac, nodeDict, level) {
      var j :| 0 <= j < |init| && Usable(init[j], nodeDict, level) && Key(init[j]) == mac;
      assert scan[j] == init[j];
    }
    assert scan[|init|] == n;
  }

  lemma SeenSnoc(prev: seq<Network>, t: Network, mac: string)
    ensures Seen(prev + [t], mac) <==> Seen(prev, mac) || Key(t) == mac
  {
    var r := prev + [t];
    if Seen(r, mac) {
      var i :| 0 <= i < |r| && Key(r[i]) == mac;
      if i < |prev| {
        assert r[i] == prev[i];
      }
    }
    if Seen(prev, mac) {
      var i :| 0 <= i < |prev| && Key(prev[i]) == mac;
      assert r[i] == prev[i];
    }
    assert r[|prev|] == t;
  }

  /** The last network is the first usable one of its access point exactly when it is usable and its key is new. */
  lemma FirstUsableLast(init: seq<Network>, n: Network, nodeDict: Dict<string, ApNode>, level: int)
    ensures FirstUsable(init + [n], |init|, nodeDict, level) <==>
      Usable(n, nodeDict, level) && !HasUsable(init, Key(n), nodeDict, level)
  {
    var scan := init + [n];
    assert scan[|init|] == n;
    if Usable(n, nodeDict, level) && HasUsable(init, Key(n), nodeDict, level) {
      var j :| 0 <= j < |init| && Usable(init[j], nodeDict, level) && Key(init[j]) == Key(n);
      assert scan[j] == init[j];
    }
    if Usable(n, nodeDict, level) && !FirstUsable(scan, |init|, nodeDict, level) {
      var j :| 0 <= j < |init| && Usable(scan[j], nodeDict, level) && Key(scan[j]) == Key(n);
      assert init[j] == scan[j];
    }
  }

  /**
   * The notebook's loop keeps exactly the first usable network of each access point, in
   * scan order; an access point is among the kept ones exactly when one of its networks
   * is usable.
   */
  lemma {:induction false} CommonScanFirstWins(scan: seq<Network>, nodeDict: Dict<string, ApNode>, level: int, mac: string)
    ensures CommonScan(scan, nodeDict, level) == Firsts(scan, |scan|, nodeDict, level)
    ensures Seen(CommonScan(scan, nodeDict, level), mac) <==> HasUsable(scan, mac, nodeDict, level)
    decreases |scan|
  {
    if |scan| > 0 {
      var init := scan[..|scan| - 1];
      var n := scan[|scan| - 1];
      assert scan == init + [n];
      var prev := CommonScan(init, nodeDict, level);
      CommonScanFirstWins(init, nodeDict, level, mac);
      CommonScanFirstWins(init, nodeDict, level, Key(n));
      FirstsPrefix(scan, |scan| - 1, nodeDict, level);
      FirstUsableLast(init, n, nodeDict, level);
      HasUsableSnoc(init, n, mac, nodeDict, level);
      if Usable(n, nodeDict, level) && !Seen(prev, Key(n)) {
        SeenSnoc(prev, Tagged(n, nodeDict, level), mac);
      }
    }
  }

  /** `Firsts` over a prefix only looks at the prefix. */
  lemma {:induction false} FirstsPrefix(scan: seq<Network>, n: nat, nodeDict: Dict<string, ApNode>, level: int)
    requires n <= |scan|
    ensures Firsts(scan[..n], n, nodeDict, level) == Firsts(scan, n, nodeDict, level)
    decreases n
  {
    if n > 0 {
      FirstsPrefix(scan, n - 1, nodeDict, level);
      FirstsPrefix(scan[..n], n - 1, nodeDict, level);
      assert scan[..n][..n - 1] == scan[..n - 1];
      FirstUsablePrefix(scan, n, nodeDict, level);
    }
  }

  lemma FirstUsablePrefix(scan: seq<Network>, n: nat, nodeDict: Dict<string, ApNode>, level: int)
    requires 0 < n <= |scan|
    ensures FirstUsable(scan[..n], n - 1, nodeDict, level) == FirstUsable(scan, n - 1, nodeDict, level)
  {
    forall j | 0 <= j < n ensures scan[..n][j] == scan[j] {}
  }

  /** No two networks share a key. */
  predicate DistinctKeys(r: seq<Network>) {
    forall i, j :: 0 <= i < j < |r| ==> Key(r[i]) != Key(r[j])
  }

  /**
   * Every kept network is on the requested level, carries its table entry's coordinates
   * and no SSID, and no two kept networks share a key.
   */
  lemma {:induction false} CommonScanSound(scan: seq<Network>, nodeDict: Dict<string, ApNode>, level: int)
    ensures forall c :: c in CommonScan(scan, nodeDict, level) ==>
      HasKey(nodeDict, Key(c)) && Get(nodeDict, Key(c)).level == level && c.ssid == None
      && |Get(nodeDict, Key(c)).coordinates| >= 2
      && c.coordinates == Some(LatLon(Get(nodeDict, Key(c)).coordinates[0], Get(nodeDict, Key(c)).coordinates[1]))
    ensures DistinctKeys(CommonScan(scan, nodeDict, level))
    decreases |scan|
  {
    if |scan| > 0 {
      var init := scan[..|scan| - 1];
      var prev := CommonScan(init, nodeDict, level);
      CommonScanSound(init, nodeDict, level);
      var n := scan[|scan| - 1];
      if Usable(n, nodeDict, level) && !Seen(prev, Key(n)) {
        var r := CommonScan(scan, nodeDict, level);
        assert r == prev + [Tagged(n, nodeDict, level)];
        forall i, j | 0 <= i < j < |r| ensures Key(r[i]) != Key(r[j]) {
          if j == |prev| {
            assert r[i] == prev[i];
            assert Key(r[j]) == Key(n);
            assert Key(prev[i]) != Key(n);
          } else {
            assert r[i] == prev[i] && r[j] == prev[j];
          }
        }
        assert DistinctKeys(r);
      }
    }
  }

  /**
   * `compare_networks`: one list per scan, in scan order, each holding the scan's kept
   * networks. `nodeDict` is the notebook's global access-point table.
   */
  method CompareNetworks(data: seq<seq<Network>>, level: int, nodeDict: Dict<string, ApNode>)
    returns (commonList: seq<seq<Network>>)
    ensures |commonList| == |data|
    ensures forall i :: 0 <= i < |data| ==> commonList[i] == CommonScan(data[i], nodeDict, level)
  {
    commonList := [];
    for s := 0 to |data|
      invariant |commonList| == s
      invariant forall i :: 0 <= i < s ==> commonList[i] == CommonScan(data[i], nodeDict, level)
    {
      var scan := data[s];
      var commonScan := [];
      for t := 0 to |scan|
        invariant commonScan == CommonScan(scan[..t], nodeDict, level)
      {
        var network := scan[t];
        var mac := DropLast(network.bssid);
        assert scan[..t + 1][..t] == scan[..t];
        if HasKey(nodeDict, mac) {
          var entry := Get(nodeDict, mac);
          if entry.level == level {
            if !Seen(commonScan, mac) {
              if |entry.coordinates| >= 2 && network.ssid.Some? {
                var pos := LatLon(entry.coordinates[0], entry.coordinates[1]);
                commonScan := commonScan + [network.(ssid := None, coordinates := Some(pos))];
              }
            }
          }
        }
      }
      assert scan[..|scan|] == scan;
      commonList := commonList + [commonScan];
    }
  }
}
