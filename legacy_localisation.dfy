/**
 * The server's legacy localisation driver (server/src/legacy_localisation/localisation.py):
 * scanned access points are matched against the reference table, and the first three
 * matches are handed to the solver.
 */
module LegacyLocalisation {
  import opened Wrappers
  import opened Dicts

  /** A reference access point: `{"ap_name", "lon", "lat"}`. */
  datatype Reference = Reference(apName: string, lon: real, lat: real)

  /** A usable access point: the reference data plus the scanned `distance`. */
  datatype UsableAp = UsableAp(apName: string, lon: real, lat: real, distance: real)

  /**
   * `Trilateration_Heuristics.first_three`: the first (at most) three entries, in
   * insertion order.
   */
  function FirstThree<V>(d: Dict<string, V>): (r: Dict<string, V>)
    ensures |r| == if |d| < 3 then |d| else 3
    ensures forall i :: 0 <= i < |r| ==> r[i] == d[i]
  {
    Take(d, 3)
  }

  /** The entry `compare_ap_data` makes for a scanned key found in the reference. */
  function UsableOf(ref: Reference, distance: real): UsableAp {
    UsableAp(ref.apName, ref.lon, ref.lat, distance)
  }

  /**
   * The scanned entries whose key the reference holds, in scan order, each joined with
   * its reference data. `scanned` maps a key to its scanned distance (the only field of
   * the scan that is read).
   */
  function Matched(scanned: Dict<string, real>, reference: Dict<string, Reference>): (r: Dict<string, UsableAp>)
    ensures |r| <= |scanned|
    decreases |scanned|
  {
    if |scanned| == 0 then []
    else
      var (key, distance) := scanned[|scanned| - 1];
      Matched(scanned[..|scanned| - 1], reference)
        + if HasKey(reference, key) then [(key, UsableOf(Get(reference, key), distance))] else []
  }

  /**
   * Every entry of the match is a scanned key that the reference holds, carrying the
   * reference's name and position and the scan's distance; every such key is matched.
   */
  lemma {:induction false} MatchedSound(scanned: Dict<string, real>, reference: Dict<string, Reference>, key: string)
    requires UniqueKeys(scanned)
    ensures UniqueKeys(Matched(scanned, reference))
    ensures HasKey(Matched(scanned, reference), key) <==> HasKey(scanned, key) && HasKey(reference, key)
    ensures HasKey(Matched(scanned, reference), key) ==>
      Get(Matched(scanned, reference), key) == UsableOf(Get(reference, key), Get(scanned, key))
    decreases |scanned|
  {
    if |scanned| > 0 {
      var init := scanned[..|scanned| - 1];
      var (k, distance) := scanned[|scanned| - 1];
      var m := Matched(init, reference);
      MatchedSound(init, reference, key);
      MatchedSound(init, reference, k);
      assert UniqueKeys(init);
      assert !HasKey(init, k);
      var r := Matched(scanned, reference);
      if HasKey(reference, k) {
        assert r == m + [(k, UsableOf(Get(reference, k), distance))];
        assert !HasKey(m, k);
        AppendFresh(m, k, UsableOf(Get(reference, k), distance), key);
      } else {
        assert r == m;
      }
      AppendFresh(init, k, distance, key);
      assert scanned == init + [(k, distance)];
    }
  }

  /** Appending an entry under a fresh key keeps keys unique, adds that key and leaves the others' values. */
  lemma AppendFresh<V>(d: Dict<string, V>, k: string, v: V, key: string)
    requires UniqueKeys(d) && !HasKey(d, k)
    ensures UniqueKeys(d + [(k, v)])
    ensures HasKey(d + [(k, v)], key) <==> HasKey(d, key) || key == k
    ensures key == k ==> Get(d + [(k, v)], key) == v
    ensures key != k && HasKey(d, key) ==> Get(d + [(k, v)], key) == Get(d, key)
  {
    assert Put(d, k, v) == d + [(k, v)];
    PutGet(d, k, v, key);
  }

  /** The matched keys are the scanned keys found in the reference, in scan order. */
  lemma {:induction false} MatchedOrder(scanned: Dict<string, real>, reference: Dict<string, Reference>)
    ensures Keys(Matched(scanned, reference)) == KnownKeys(Keys(scanned), reference)
    decreases |scanned|
  {
    if |scanned| > 0 {
      var init := scanned[..|scanned| - 1];
      var (k, distance) := scanned[|scanned| - 1];
      MatchedOrder(init, reference);
      assert scanned == init + [(k, distance)];
      KeysSnoc(init, (k, distance));
      var ks := Keys(scanned);
      assert ks[..|ks| - 1] == Keys(init) && ks[|ks| - 1] == k;
      var m := Matched(init, reference);
      if HasKey(reference, k) {
        KeysSnoc(m, (k, UsableOf(Get(reference, k), distance)));
      }
    }
  }

  lemma KeysSnoc<V>(d: Dict<string, V>, e: (string, V))
    ensures Keys(d + [e]) == Keys(d) + [e.0]
  {
  }

  /** The keys of `keys` that `reference` holds, in order. */
  function KnownKeys(keys: seq<string>, reference: Dict<string, Reference>): seq<string>
    decreases |keys|
  {
    if |keys| == 0 then []
    else KnownKeys(keys[..|keys| - 1], reference) + if HasKey(reference, keys[|keys| - 1]) then [keys[|keys| - 1]] else []
  }

  class Localisation {
    /** `ap_dict`: the access points chosen for use, with their distances. */
    var apDict: Dict<string, UsableAp>
    /** `ap_reference`: the reference table of the floor. */
    var apReference: Dict<string, Reference>
    /** `scanned_ap`: the distances of the last scan. */
    var scannedAp: Dict<string, real>

    /** The object's dictionaries are dictionaries: no key twice. */
    predicate Valid()
      reads this
    {
      UniqueKeys(apReference) && UniqueKeys(scannedAp)
    }

    /** `reference` stands for the table the access-point processor reads from its file. */
    constructor (reference: Dict<string, Reference>)
      requires UniqueKeys(reference)
      ensures Valid()
      ensures apDict == [] && apReference == reference && scannedAp == []
    {
      apDict := [];
      apReference := reference;
      scannedAp := [];
    }

    /** `load_offline_data` and `execute_scan`: the scan's results replace `scanned_ap`. */
    method LoadScan(networkDict: Dict<string, real>)
      requires Valid() && UniqueKeys(networkDict)
      modifies this
      ensures Valid()
      ensures scannedAp == networkDict && apDict == old(apDict) && apReference == old(apReference)
    {
      scannedAp := networkDict;
    }

    /**
     * `compare_ap_data`: the previous choice is discarded, then every scanned key the
     * reference holds is added, in scan order.
     */
    method CompareApData()
      requires Valid()
      modifies this
      ensures Valid()
      ensures apReference == old(apReference) && scannedAp == old(scannedAp)
      ensures apDict == Matched(scannedAp, apReference)
    {
      apDict := [];
      var i := 0;
      while i < |scannedAp|
        invariant 0 <= i <= |scannedAp|
        invariant Valid() && apReference == old(apReference) && scannedAp == old(scannedAp)
        invariant apDict == Matched(scannedAp[..i], apReference)
      {
        var (key, distance) := scannedAp[i];
        assert scannedAp[..i + 1][..i] == scannedAp[..i];
        if HasKey(apReference, key) {
          MatchedFresh(scannedAp, i, apReference);
          var ref := Get(apReference, key);
          apDict := Put(apDict, key, UsableAp(ref.apName, ref.lon, ref.lat, distance));
        }
        i := i + 1;
      }
      assert scannedAp[..|scannedAp|] == scannedAp;
    }

    /**
     * The guard and selection of `perform_trilateration`: `None` when fewer than three
     * access points were matched (the method returns early), otherwise the first three.
     */
    method PerformTrilateration() returns (used: Option<Dict<string, UsableAp>>)
      ensures used.None? <==> |apDict| < 3
      ensures used.Some? ==> |used.value| == 3 && used.value == apDict[..3]
    {
      if |apDict| < 3 {
        return None;
      }
      var usedDict := FirstThree(apDict);
      return Some(usedDict);
    }
  }

  /** A key met for the first time in the scan is not yet among the matches. */
  lemma MatchedFresh(scanned: Dict<string, real>, i: nat, reference: Dict<string, Reference>)
    requires UniqueKeys(scanned) && i < |scanned|
    ensures !HasKey(Matched(scanned[..i], reference), scanned[i].0)
  {
    var key := scanned[i].0;
    MatchedSound(scanned[..i], reference, key);
  }
}
