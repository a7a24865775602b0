/**
 * The mobile client's access-point matcher (app/components/Trilateration.js): scanned
 * networks are matched to known access points by BSSID prefix, sorted by signal level
 * in place, and the first three are handed to a placeholder solver.
 */
module ClientTrilateration {
  import opened Wrappers
  import opened Text
  import opened Features

  /** A scanned or known network: its BSSID, its signal level and its access point's coordinates. */
  datatype Network = Network(bssid: string, level: int, coordinates: Option<Coord>)

  /** The `{point, error, networks}` object of `trilaterate`. */
  datatype Estimate = Estimate(point: Coord, error: int, networks: seq<Network>)

  /** `getNetworkKey`: the BSSID without its final character, which differs between the radios of one access point. */
  function NetworkKey(n: Network): string {
    DropLast(n.bssid)
  }

  /** `knownNetworks.filter(n => n.BSSID.startsWith(key))[0]`, as an index. */
  function FirstMatch(known: seq<Network>, key: string): (r: Option<nat>)
    ensures r.Some? ==> r.value < |known|
  {
    if |known| == 0 then None
    else if StartsWith(known[0].bssid, key) then Some(0)
    else match FirstMatch(known[1..], key)
      case None => None
      case Some(j) => Some(j + 1)
  }

  /** The index found is that of the first known network whose BSSID starts with the key; there is none when no BSSID does. */
  lemma {:induction false} FirstMatchIsFirst(known: seq<Network>, key: string)
    ensures var r := FirstMatch(known, key);
      && (r.Some? ==> StartsWith(known[r.value].bssid, key))
      && (r.Some? ==> forall j :: 0 <= j < r.value ==> !StartsWith(known[j].bssid, key))
      && (r.None? <==> forall j :: 0 <= j < |known| ==> !StartsWith(known[j].bssid, key))
    decreases |known|
  {
    if |known| > 0 && !StartsWith(known[0].bssid, key) {
      FirstMatchIsFirst(known[1..], key);
      forall j | 1 <= j < |known| ensures known[j] == known[1..][j - 1] {}
    }
  }

  /** The matched form of one scanned network, if any known network shares its key. */
  function Adopt(v: Network, known: seq<Network>): Option<Network> {
    match FirstMatch(known, NetworkKey(v))
    case None => None
    case Some(j) => Some(v.(coordinates := known[j].coordinates))
  }

  /** The networks the constructor keeps, in scan order, each with its access point's coordinates. */
  function Common(visible: seq<Network>, known: seq<Network>): seq<Network>
    decreases |visible|
  {
    if |visible| == 0 then []
    else Kept(visible[0], known) + Common(visible[1..], known)
  }

  /** What one scanned network contributes: its matched form, or nothing. */
  function Kept(v: Network, known: seq<Network>): seq<Network> {
    match Adopt(v, known)
    case None => []
    case Some(n) => [n]
  }

  /**
   * Matching is done network by network: the networks kept from a concatenation are
   * those kept from each part. In particular two radios of one access point are both
   * kept, as there is no de-duplication.
   */
  lemma {:induction false} CommonAppend(a: seq<Network>, b: seq<Network>, known: seq<Network>)
    ensures Common(a + b, known) == Common(a, known) + Common(b, known)
    decreases |a|
  {
    if |a| == 0 {
      assert a + b == b;
    } else {
      var k := Kept(a[0], known);
      var rest, tail := Common(a[1..], known), Common(b, known);
      assert Common(a + b, known) == k + Common(a[1..] + b, known) by {
        assert (a + b)[0] == a[0];
        assert (a + b)[1..] == a[1..] + b;
      }
      CommonAppend(a[1..], b, known);
      ConcatAssoc(k, rest, tail);
    }
  }

  lemma ConcatAssoc(x: seq<Network>, y: seq<Network>, z: seq<Network>)
    ensures x + (y + z) == (x + y) + z
  {
  }

  lemma CommonSnoc(visible: seq<Network>, v: Network, known: seq<Network>)
    ensures Common(visible + [v], known) == Common(visible, known) + Kept(v, known)
  {
    CommonAppend(visible, [v], known);
    assert [v][1..] == [];
    assert Common([v], known) == Kept(v, known) + [];
  }

  /** One scanned network is kept exactly when some known BSSID starts with its key. */
  lemma CommonOne(v: Network, known: seq<Network>)
    ensures |Common([v], known)| <= 1
    ensures |Common([v], known)| == 1 <==> exists j :: 0 <= j < |known| && StartsWith(known[j].bssid, NetworkKey(v))
    ensures |Common([v], known)| == 1 ==> FirstMatch(known, NetworkKey(v)).Some? && var c := Common([v], known)[0];
      && c.bssid == v.bssid && c.level == v.level
      && c.coordinates == known[FirstMatch(known, NetworkKey(v)).value].coordinates
  {
    assert [v][1..] == [];
    FirstMatchIsFirst(known, NetworkKey(v));
  }

  /** Every kept network is a scanned one that some known network matches. */
  lemma {:induction false} CommonSound(visible: seq<Network>, known: seq<Network>, c: Network)
    requires c in Common(visible, known)
    ensures exists v :: v in visible && Adopt(v, known) == Some(c)
    decreases |visible|
  {
    if Adopt(visible[0], known) == Some(c) {
      assert visible[0] in visible;
    } else {
      assert c in Common(visible[1..], known);
      CommonSound(visible[1..], known, c);
      var v :| v in visible[1..] && Adopt(v, known) == Some(c);
      assert v in visible;
    }
  }

  /** The constructor's `forEach` loop. */
  method MatchNetworks(visible: seq<Network>, known: seq<Network>) returns (common: seq<Network>)
    ensures common == Common(visible, known)
  {
    common := [];
    var i := 0;
    while i < |visible|
      invariant 0 <= i <= |visible|
      invariant common == Common(visible[..i], known)
    {
      var network := visible[i];
      var other := FirstMatch(known, NetworkKey(network));
      assert visible[..i + 1] == visible[..i] + [network];
      CommonSnoc(visible[..i], network, known);
      if other.Some? {
        common := common + [network.(coordinates := known[other.value].coordinates)];
      }
      i := i + 1;
    }
    assert visible[..|visible|] == visible;
  }

  /** `a` goes no later than `b`: the comparator `a.level - b.level`, or `b.level - a.level` when descending. */
  predicate Before(a: Network, b: Network, descending: bool) {
    if descending then a.level >= b.level else a.level <= b.level
  }

  predicate SortedBy(s: seq<Network>, descending: bool) {
    forall i, j :: 0 <= i < j < |s| ==> Before(s[i], s[j], descending)
  }

  /** Insert `x`, which came earlier than every element of `s`, ahead of the elements it ties with. */
  function Insert(x: Network, s: seq<Network>, descending: bool): (r: seq<Network>)
    ensures multiset(r) == multiset(s) + multiset{x}
  {
    if |s| == 0 || Before(x, s[0], descending) then [x] + s
    else
      assert s == [s[0]] + s[1..];
      [s[0]] + Insert(x, s[1..], descending)
  }

  /** `Array.prototype.sort` with a level comparator: a stable sort, here an insertion sort. */
  function SortByLevel(s: seq<Network>, descending: bool): (r: seq<Network>)
    ensures multiset(r) == multiset(s)
  {
    if |s| == 0 then []
    else
      assert s == [s[0]] + s[1..];
      Insert(s[0], SortByLevel(s[1..], descending), descending)
  }

  lemma {:induction false} InsertSorted(x: Network, s: seq<Network>, descending: bool)
    requires SortedBy(s, descending)
    ensures SortedBy(Insert(x, s, descending), descending)
    decreases |s|
  {
    if |s| > 0 && !Before(x, s[0], descending) {
      var rest := Insert(x, s[1..], descending);
      InsertSorted(x, s[1..], descending);
      InsertAfterHead(x, s, descending);
      var r := [s[0]] + rest;
      forall i, j | 0 <= i < j < |r|
        ensures Before(r[i], r[j], descending)
      {
        if i == 0 {
          assert r[j] == rest[j - 1] && rest[j - 1] in rest;
        } else {
          assert r[i] == rest[i - 1] && r[j] == rest[j - 1];
        }
      }
    }
  }

  /** When `x` goes after the head of a sorted list, the head goes no later than anything in the rest with `x` inserted. */
  lemma InsertAfterHead(x: Network, s: seq<Network>, descending: bool)
    requires SortedBy(s, descending) && |s| > 0 && !Before(x, s[0], descending)
    ensures forall y :: y in Insert(x, s[1..], descending) ==> Before(s[0], y, descending)
  {
    var rest := Insert(x, s[1..], descending);
    forall y | y in rest
      ensures Before(s[0], y, descending)
    {
      assert y in multiset(rest);
      if y != x {
        assert y in multiset(s[1..]);
        var j :| 0 <= j < |s[1..]| && s[1..][j] == y;
        assert s[j + 1] == y;
      }
    }
  }

  /** The sort orders by level and is a permutation of its input. */
  lemma {:induction false} SortByLevelSorted(s: seq<Network>, descending: bool)
    ensures SortedBy(SortByLevel(s, descending), descending)
    ensures multiset(SortByLevel(s, descending)) == multiset(s)
    decreases |s|
  {
    if |s| > 0 {
      SortByLevelSorted(s[1..], descending);
      InsertSorted(s[0], SortByLevel(s[1..], descending), descending);
    }
  }

  /** The networks of `s` with the given level, in their order in `s`. */
  function WithLevel(s: seq<Network>, level: int): seq<Network> {
    if |s| == 0 then []
    else (if s[0].level == level then [s[0]] else []) + WithLevel(s[1..], level)
  }

  /** Inserting a network puts it ahead of every network of its level and moves no other. */
  lemma {:induction false} InsertKeepsTies(x: Network, s: seq<Network>, descending: bool, level: int)
    ensures WithLevel(Insert(x, s, descending), level) == (if x.level == level then [x] else []) + WithLevel(s, level)
    decreases |s|
  {
    if |s| == 0 || Before(x, s[0], descending) {
      assert Insert(x, s, descending) == [x] + s;
      WithLevelCons(x, s, level);
    } else {
      var rest := Insert(x, s[1..], descending);
      assert Insert(x, s, descending) == [s[0]] + rest;
      InsertKeepsTies(x, s[1..], descending, level);
      assert s == [s[0]] + s[1..];
      PassTie(s[0], x, rest, s[1..], level);
    }
  }

  /** Moving `x` behind a network `y` of another level keeps the order of each level. */
  lemma PassTie(y: Network, x: Network, rest: seq<Network>, s: seq<Network>, level: int)
    requires WithLevel(rest, level) == (if x.level == level then [x] else []) + WithLevel(s, level)
    requires x.level == level ==> y.level != level
    ensures WithLevel([y] + rest, level) == (if x.level == level then [x] else []) + WithLevel([y] + s, level)
  {
    WithLevelCons(y, rest, level);
    WithLevelCons(y, s, level);
  }

  lemma WithLevelCons(y: Network, s: seq<Network>, level: int)
    ensures WithLevel([y] + s, level) == (if y.level == level then [y] else []) + WithLevel(s, level)
  {
    assert ([y] + s)[0] == y && ([y] + s)[1..] == s;
  }

  /**
   * The sort is stable: the networks of any one level come out in the order they went
   * in, so ties are broken by position in the common list.
   */
  lemma {:induction false} SortByLevelStable(s: seq<Network>, descending: bool, level: int)
    ensures WithLevel(SortByLevel(s, descending), level) == WithLevel(s, level)
    decreases |s|
  {
    if |s| > 0 {
      SortByLevelStable(s[1..], descending, level);
      InsertKeepsTies(s[0], SortByLevel(s[1..], descending), descending, level);
    }
  }

  function TakeThree(s: seq<Network>): (r: seq<Network>)
    ensures |r| == if |s| < 3 then |s| else 3
    ensures r == s[..|r|]
  {
    if |s| < 3 then s else s[..3]
  }

  /**
   * `firstThree` uses at most three networks, all taken from the common list and none
   * weaker than a network it leaves out; `lastThree` uses the three strongest.
   */
  lemma SelectionExtremes(s: seq<Network>, descending: bool)
    ensures var sorted := SortByLevel(s, descending);
      var sel := TakeThree(sorted);
      && |sel| == (if |s| < 3 then |s| else 3)
      && multiset(sel) <= multiset(s)
      && forall i, j :: 0 <= i < |sel| <= j < |sorted| ==> Before(sel[i], sorted[j], descending)
  {
    var sorted := SortByLevel(s, descending);
    SortByLevelSorted(s, descending);
    var sel := TakeThree(sorted);
    assert |sorted| == |s| by {
      assert |multiset(sorted)| == |multiset(s)|;
    }
    TakeThreeDrawn(sorted);
    forall i, j | 0 <= i < |sel| <= j < |sorted|
      ensures Before(sel[i], sorted[j], descending)
    {
      assert sel[i] == sorted[i];
    }
  }

  /** The selection is drawn from the list it is taken from. */
  lemma TakeThreeDrawn(s: seq<Network>)
    ensures multiset(TakeThree(s)) <= multiset(s)
  {
    var n := |TakeThree(s)|;
    assert s == s[..n] + s[n..];
  }

  /** `trilaterate`: the placeholder solver; the point and the error are sentinels, the networks pass through. */
  function Trilaterate(networks: seq<Network>): (e: Estimate)
    ensures e.point == Coord(-1.0, -1.0) && e.error == -1 && e.networks == networks
  {
    Estimate(Coord(-1.0, -1.0), -1, networks)
  }

  /** The common list is a rearrangement of the matched networks, and at most three of its networks are used. */
  predicate Consistent(visible: seq<Network>, known: seq<Network>, common: seq<Network>, used: seq<Network>) {
    && multiset(common) == multiset(Common(visible, known))
    && |used| <= 3
    && multiset(used) <= multiset(common)
  }

  /** Using the first three of the common list keeps the lists consistent. */
  lemma SelectionConsistent(visible: seq<Network>, known: seq<Network>, common: seq<Network>, used: seq<Network>)
    requires Consistent(visible, known, common, used)
    ensures Consistent(visible, known, common, TakeThree(common))
  {
    TakeThreeDrawn(common);
  }

  class Trilateration {
    var visibleNetworks: seq<Network>
    var knownNetworks: seq<Network>
    var commonNetworks: seq<Network>
    var usedNetworks: seq<Network>
    var predictedLocation: Coord

    /** The common list is always a rearrangement of the matched networks, and at most three are used. */
    predicate Valid()
      reads this
    {
      Consistent(visibleNetworks, knownNetworks, commonNetworks, usedNetworks)
    }

    /** `new Trilateration(visible, known)`; an absent list (`null`) counts as empty. */
    constructor (visible: Option<seq<Network>>, known: Option<seq<Network>>)
      ensures Valid()
      ensures visibleNetworks == visible.GetOr([]) && knownNetworks == known.GetOr([])
      ensures commonNetworks == Common(visibleNetworks, knownNetworks)
      ensures usedNetworks == [] && predictedLocation == Coord(-999.0, -999.0)
    {
      visibleNetworks := visible.GetOr([]);
      knownNetworks := known.GetOr([]);
      usedNetworks := [];
      predictedLocation := Coord(-999.0, -999.0);
      new;
      commonNetworks := MatchNetworks(visibleNetworks, knownNetworks);
    }

    /** `firstThree`: sorts the common list ascending by level in place, then solves with its first three. */
    method FirstThree() returns (e: Estimate)
      requires Valid()
      modifies this
      ensures Valid()
      ensures commonNetworks == SortByLevel(old(commonNetworks), false)
      ensures e == Trilaterate(TakeThree(commonNetworks))
      ensures visibleNetworks == old(visibleNetworks) && knownNetworks == old(knownNetworks)
      ensures usedNetworks == old(usedNetworks) && predictedLocation == old(predictedLocation)
    {
      var sorted := SortByLevel(commonNetworks, false);
      commonNetworks := sorted;
      e := Trilaterate(TakeThree(sorted));
    }

    /** `lastThree`: the same with the descending comparator. */
    method LastThree() returns (e: Estimate)
      requires Valid()
      modifies this
      ensures Valid()
      ensures commonNetworks == SortByLevel(old(commonNetworks), true)
      ensures e == Trilaterate(TakeThree(commonNetworks))
      ensures visibleNetworks == old(visibleNetworks) && knownNetworks == old(knownNetworks)
      ensures usedNetworks == old(usedNetworks) && predictedLocation == old(predictedLocation)
    {
      var sorted := SortByLevel(commonNetworks, true);
      commonNetworks := sorted;
      e := Trilaterate(TakeThree(sorted));
    }

    /** `startTrilateration`: records the sentinel point and the `firstThree` selection. */
    method StartTrilateration()
      requires Valid()
      modifies this
      ensures Valid()
      ensures commonNetworks == SortByLevel(old(commonNetworks), false)
      ensures predictedLocation == Coord(-1.0, -1.0)
      ensures usedNetworks == TakeThree(commonNetworks)
      ensures visibleNetworks == old(visibleNetworks) && knownNetworks == old(knownNetworks)
    {
      var data := FirstThree();
      SelectionConsistent(visibleNetworks, knownNetworks, commonNetworks, usedNetworks);
      predictedLocation := data.point;
      usedNetworks := data.networks;
    }

    function GetUsedNetworks(): seq<Network>
      reads this
    {
      usedNetworks
    }

    function GetPredictedLocation(): Coord
      reads this
    {
      predictedLocation
    }
  }
}
