/** Python dictionaries as association lists: a sequence of (key, value)
    pairs in insertion order, which is the order Python iterates a dict in.
    A CaseInsensitiveDict is such a list whose keys stay distinct after
    lower-casing. */
module Dicts {
  import opened Text
  import opened Seqs

  /** `list(d.keys())`. */
  function Keys<K, V>(m: seq<(K, V)>): seq<K> {
    seq(|m|, i requires 0 <= i < |m| => m[i].0)
  }

  /** The shape of every Python dict: no key twice. */
  predicate DistinctKeys<K(==), V>(m: seq<(K, V)>) {
    Distinct(Keys(m))
  }

  /** The shape of a requests CaseInsensitiveDict: keys that differ only in
      letter case cannot both be present. */
  predicate IsTable<V>(t: seq<(String, V)>) {
    forall i, j :: 0 <= i < j < |t| ==> Lower(t[i].0) != Lower(t[j].0)
  }

  /** Where key k sits in m (its first entry). */
  function IndexOf<K(==), V>(m: seq<(K, V)>, k: K): (i: nat)
    requires k in Keys(m)
    ensures i < |m| && m[i].0 == k
    ensures forall j :: 0 <= j < i ==> m[j].0 != k
  {
    var i := FirstIndex(Keys(m), k);
    assert forall j :: 0 <= j < i ==> Keys(m)[..i][j] == m[j].0;
    i
  }

  /** `d[k]` for a key that is present. */
  function Get<K(==), V>(m: seq<(K, V)>, k: K): V
    requires k in Keys(m)
  {
    m[IndexOf(m, k)].1
  }

  /** In a dict, the value stored with the i-th key is what looking that key
      up returns. */
  lemma GetAt<K, V>(m: seq<(K, V)>, i: nat)
    requires DistinctKeys(m) && i < |m|
    ensures m[i].0 in Keys(m) && Get(m, m[i].0) == m[i].1
  {
    assert Keys(m)[i] == m[i].0;
  }

  /** `d[k] = v`: a present key keeps its place and takes the new value, a
      new key goes to the end; nothing else changes. */
  function Put<K(==), V>(m: seq<(K, V)>, k: K, v: V): (r: seq<(K, V)>)
    ensures Keys(r) == if k in Keys(m) then Keys(m) else Keys(m) + [k]
    ensures k in Keys(r) && Get(r, k) == v
    ensures forall k' :: k' in Keys(m) && k' != k ==> Get(r, k') == Get(m, k')
    ensures DistinctKeys(m) ==> DistinctKeys(r)
  {
    if k in Keys(m) then
      var i := IndexOf(m, k);
      var r := m[i := (k, v)];
      assert Keys(r) == Keys(m);
      SameKeysSameIndexes(m, r);
      r
    else
      var r := m + [(k, v)];
      assert Keys(r) == Keys(m) + [k];
      SameKeysSameIndexes(m, r);
      r
  }

  /** A list whose keys start with m's keys finds each of them where m does. */
  lemma SameKeysSameIndexes<K, V>(m: seq<(K, V)>, r: seq<(K, V)>)
    requires |m| <= |r| && forall j :: 0 <= j < |m| ==> r[j].0 == m[j].0
    ensures forall k :: k in Keys(m) ==> k in Keys(r) && IndexOf(r, k) == IndexOf(m, k)
  {
    forall k | k in Keys(m) ensures k in Keys(r) && IndexOf(r, k) == IndexOf(m, k) {
      var i := IndexOf(m, k);
      assert Keys(r)[i] == k;
      var i' := IndexOf(r, k);
      if i' < i {
        assert m[i'].0 == k;
      }
    }
  }

  lemma KeysSnoc<K, V>(m: seq<(K, V)>, x: (K, V))
    ensures Keys(m + [x]) == Keys(m) + [x.0]
  {
  }
}
