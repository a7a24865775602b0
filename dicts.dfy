/**
 * Python dictionaries keep their keys in insertion order, and the source prints and
 * slices them in that order. A dictionary is modelled as a list of (key, value)
 * entries without repeated keys: assigning to a present key replaces its value in
 * place, assigning to a new key appends an entry.
 */
module Dicts {
  import opened Wrappers

  type Dict<K, V> = seq<(K, V)>

  /** The keys of `d`, in insertion order. */
  function Keys<K, V>(d: Dict<K, V>): (ks: seq<K>)
    ensures |ks| == |d| && forall i :: 0 <= i < |d| ==> ks[i] == d[i].0
  {
    if |d| == 0 then [] else [d[0].0] + Keys(d[1..])
  }

  /** No key appears twice. */
  predicate UniqueKeys<K(==), V>(d: Dict<K, V>) {
    forall i, j :: 0 <= i < j < |d| ==> d[i].0 != d[j].0
  }

  /** Python `k in d`. */
  predicate HasKey<K(==), V>(d: Dict<K, V>, k: K) {
    exists i :: 0 <= i < |d| && d[i].0 == k
  }

  /** Position of the first entry with key `k`. */
  function IndexOf<K(==), V>(d: Dict<K, V>, k: K): (r: Option<nat>)
    ensures r.Some? ==> r.value < |d| && d[r.value].0 == k && forall j :: 0 <= j < r.value ==> d[j].0 != k
    ensures r.None? <==> !HasKey(d, k)
  {
    if |d| == 0 then None
    else if d[0].0 == k then Some(0)
    else match IndexOf(d[1..], k)
      case None => None
      case Some(i) => Some(i + 1)
  }

  /** Python `d[k]`, for a present key. */
  function Get<K(==), V>(d: Dict<K, V>, k: K): V
    requires HasKey(d, k)
  {
    d[IndexOf(d, k).value].1
  }

  /** Python `d[k] = v`: replace the value in place, or append a new entry. */
  function Put<K(==), V>(d: Dict<K, V>, k: K, v: V): (r: Dict<K, V>)
    ensures HasKey(d, k) ==> |r| == |d| && Keys(r) == Keys(d)
    ensures !HasKey(d, k) ==> r == d + [(k, v)]
  {
    match IndexOf(d, k)
    case Some(i) => d[i := (k, v)]
    case None => d + [(k, v)]
  }

  /** What `Put` does, read back through `Get` and `HasKey`; keys stay unique. */
  lemma PutGet<K, V>(d: Dict<K, V>, k: K, v: V, k': K)
    requires UniqueKeys(d)
    ensures UniqueKeys(Put(d, k, v))
    ensures HasKey(Put(d, k, v), k') <==> HasKey(d, k') || k' == k
    ensures k' == k ==> Get(Put(d, k, v), k') == v
    ensures k' != k && HasKey(d, k') ==> Get(Put(d, k, v), k') == Get(d, k')
  {
    if HasKey(d, k) {
      PutPresent(d, k, v, k', IndexOf(d, k).value);
    } else {
      PutAbsent(d, k, v, k');
    }
  }

  /** In a dictionary, the entry holding a key is the one `IndexOf` finds. */
  lemma IndexOfKey<K, V>(d: Dict<K, V>, k: K, j: nat)
    requires UniqueKeys(d) && j < |d| && d[j].0 == k
    ensures IndexOf(d, k) == Some(j)
  {
    assert HasKey(d, k);
    var r := IndexOf(d, k).value;
    assert d[r].0 == d[j].0;
  }

  /** Entry by entry, the same keys. */
  predicate SameKeys<K(==), V>(a: Dict<K, V>, b: Dict<K, V>) {
    |a| == |b| && forall x :: 0 <= x < |a| ==> a[x].0 == b[x].0
  }

  lemma PutPresent<K, V>(d: Dict<K, V>, k: K, v: V, k': K, i: nat)
    requires UniqueKeys(d) && IndexOf(d, k) == Some(i)
    ensures UniqueKeys(Put(d, k, v))
    ensures HasKey(Put(d, k, v), k') <==> HasKey(d, k') || k' == k
    ensures k' == k ==> Get(Put(d, k, v), k') == v
    ensures k' != k && HasKey(d, k') ==> Get(Put(d, k, v), k') == Get(d, k')
  {
    var r := Put(d, k, v);
    assert r == d[i := (k, v)];
    assert SameKeys(r, d) by {
      forall x | 0 <= x < |r| ensures r[x].0 == d[x].0 {
      }
    }
    assert UniqueKeys(r);
    if k' != k && HasKey(d, k') {
      var j := IndexOf(d, k').value;
      assert r[j] == d[j];
      IndexOfKey(r, k', j);
    }
    if k' == k {
      IndexOfKey(r, k', i);
    }
  }

  lemma PutAbsent<K, V>(d: Dict<K, V>, k: K, v: V, k': K)
    requires UniqueKeys(d) && !HasKey(d, k)
    ensures UniqueKeys(Put(d, k, v))
    ensures HasKey(Put(d, k, v), k') <==> HasKey(d, k') || k' == k
    ensures k' == k ==> Get(Put(d, k, v), k') == v
    ensures k' != k && HasKey(d, k') ==> Get(Put(d, k, v), k') == Get(d, k')
  {
    var r := Put(d, k, v);
    assert r == d + [(k, v)];
    assert r[|d|].0 == k;
    if k' != k && HasKey(d, k') {
      var j := IndexOf(d, k').value;
      assert r[j] == d[j];
      assert IndexOf(r, k') == Some(j);
    }
    if k' == k {
      assert IndexOf(r, k') == Some(|d|);
    }
  }

  /** The first `n` entries in insertion order (Python `dict(list(d.items())[:n])`). */
  function Take<K, V>(d: Dict<K, V>, n: nat): (r: Dict<K, V>)
    ensures |r| == if |d| < n then |d| else n
    ensures forall i :: 0 <= i < |r| ==> r[i] == d[i]
  {
    if |d| < n then d else d[..n]
  }

  /** Python `for k, v in entries: d[k] = v`. */
  function PutAll<K(==), V>(d: Dict<K, V>, entries: seq<(K, V)>): Dict<K, V>
    decreases |entries|
  {
    if |entries| == 0 then d
    else Put(PutAll(d, entries[..|entries| - 1]), entries[|entries| - 1].0, entries[|entries| - 1].1)
  }

  /** The position of the last entry with key `k`. */
  function LastIndex<K(==), V>(entries: seq<(K, V)>, k: K): (r: Option<nat>)
    ensures r.Some? ==> r.value < |entries| && entries[r.value].0 == k
    ensures r.Some? ==> forall j :: r.value < j < |entries| ==> entries[j].0 != k
    ensures r.None? ==> forall j :: 0 <= j < |entries| ==> entries[j].0 != k
    decreases |entries|
  {
    if |entries| == 0 then None
    else if entries[|entries| - 1].0 == k then Some(|entries| - 1)
    else LastIndex(entries[..|entries| - 1], k)
  }

  /**
   * After a run of assignments a key is present when it was before or was assigned, and
   * it holds the value of its last assignment; keys it was not assigned keep their values.
   */
  lemma {:induction false} PutAllGet<K, V>(d: Dict<K, V>, entries: seq<(K, V)>, k: K)
    requires UniqueKeys(d)
    ensures UniqueKeys(PutAll(d, entries))
    ensures HasKey(PutAll(d, entries), k) <==> HasKey(d, k) || LastIndex(entries, k).Some?
    ensures LastIndex(entries, k).Some? ==> Get(PutAll(d, entries), k) == entries[LastIndex(entries, k).value].1
    ensures LastIndex(entries, k).None? && HasKey(d, k) ==> Get(PutAll(d, entries), k) == Get(d, k)
    decreases |entries|
  {
    if |entries| > 0 {
      var init := entries[..|entries| - 1];
      var (k', v) := entries[|entries| - 1];
      PutAllGet(d, init, k);
      PutGet(PutAll(d, init), k', v, k);
    }
  }

  /** The last entry with key `k` is the one `LastIndex` finds. */
  lemma LastIndexIs<K, V>(entries: seq<(K, V)>, i: nat, k: K)
    requires i < |entries| && entries[i].0 == k
    requires forall j :: i < j < |entries| ==> entries[j].0 != k
    ensures LastIndex(entries, k) == Some(i)
  {
    var r := LastIndex(entries, k);
    assert r.Some?;
    if r.value < i {
    } else if r.value > i {
    }
  }
}
