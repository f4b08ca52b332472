/** Facts about sequences and maps that proofs call by name. */
module Sequences {

  lemma Associate<T>(a: seq<T>, b: seq<T>, c: seq<T>)
    ensures a + b + c == a + (b + c)
  {
  }

  lemma Whole<T>(a: array<T>)
    ensures a[..a.Length] == a[..]
  {
  }

  lemma SameMap<K, V>(a: map<K, V>, b: map<K, V>)
    requires a.Keys == b.Keys && forall x :: x in a.Keys ==> a[x] == b[x]
    ensures a == b
  {
  }
}
