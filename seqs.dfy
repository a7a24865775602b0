/** Facts about slices of sequences that loops over a prefix or a suffix need. */
module Seqs {

  /** Extending a prefix by one element. */
  lemma PrefixSnoc<T>(s: seq<T>, i: nat)
    requires i < |s|
    ensures s[..i + 1] == s[..i] + [s[i]]
  {
  }

  /** Dropping `k` elements from a suffix. */
  lemma SuffixDrop<T>(s: seq<T>, i: nat, k: nat)
    requires i + k <= |s|
    ensures s[i..][k..] == s[i + k..]
  {
  }

  /** A suffix is its first element followed by the next suffix. */
  lemma SuffixCons<T>(s: seq<T>, i: nat)
    requires i < |s|
    ensures s[i..] == [s[i]] + s[i + 1..]
  {
  }

  /** Appending to a sequence appends to each of its suffixes. */
  lemma SuffixSnoc<T>(s: seq<T>, i: nat, x: T)
    requires i <= |s|
    ensures (s + [x])[i..] == s[i..] + [x]
  {
  }

  /** Concatenation is associative. */
  lemma AppendAssoc<T>(a: seq<T>, b: seq<T>, c: seq<T>)
    ensures (a + b) + c == a + (b + c)
  {
  }
}
