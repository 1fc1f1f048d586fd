/** `GoToWhere._merge_dicts`: folds a list of small dicts into one dict from
    key to the values paired with it, either as a set (`default_type=set`)
    or as a list that never takes the same (key, value) pair twice
    (`default_type=list`). */
module Merge {
  import opened Seqs
  import opened Dicts

  /** The values paired with key k anywhere in ps. */
  function ValueSet<K(==), V(==)>(ps: seq<(K, V)>, k: K): set<V> {
    set p | p in ps && p.0 == k :: p.1
  }

  /** The values paired with key k, in the order the pairs come in ps. */
  function ValueList<K(==), V>(ps: seq<(K, V)>, k: K): seq<V> {
    if ps == [] then []
    else ValueList(ps[..|ps| - 1], k) + (if ps[|ps| - 1].0 == k then [ps[|ps| - 1].1] else [])
  }

  /** `merged_dicts[k].add(v)` on a defaultdict(set). */
  function AddToSet<K(==), V>(m: seq<(K, set<V>)>, k: K, v: V): seq<(K, set<V>)> {
    Put(m, k, (if k in Keys(m) then Get(m, k) else {}) + {v})
  }

  /** `merged_dicts[k].append(v)` on a defaultdict(list). */
  function AppendToList<K(==), V>(m: seq<(K, seq<V>)>, k: K, v: V): seq<(K, seq<V>)> {
    Put(m, k, (if k in Keys(m) then Get(m, k) else []) + [v])
  }

  /** The set-policy dict after the pairs ps have been processed in order. */
  function MergedSets<K(==), V>(ps: seq<(K, V)>): seq<(K, set<V>)> {
    if ps == [] then []
    else AddToSet(MergedSets(ps[..|ps| - 1]), ps[|ps| - 1].0, ps[|ps| - 1].1)
  }

  /** The list-policy dict after the pairs ps have been processed in order: a
      pair already met earlier in ps (and so already in `items`) is skipped. */
  function MergedLists<K(==), V(==)>(ps: seq<(K, V)>): seq<(K, seq<V>)> {
    if ps == [] then []
    else
      var q, p := ps[..|ps| - 1], ps[|ps| - 1];
      if p in q then MergedLists(q) else AppendToList(MergedLists(q), p.0, p.1)
  }

  lemma MergedSetsSnoc<K, V>(ps: seq<(K, V)>, p: (K, V))
    ensures MergedSets(ps + [p]) == AddToSet(MergedSets(ps), p.0, p.1)
  {
    assert (ps + [p])[..|ps|] == ps;
  }

  lemma MergedListsSnoc<K, V>(ps: seq<(K, V)>, p: (K, V))
    ensures MergedLists(ps + [p]) == if p in ps then MergedLists(ps) else AppendToList(MergedLists(ps), p.0, p.1)
  {
    assert (ps + [p])[..|ps|] == ps;
  }

  lemma ValueSetSnoc<K, V>(ps: seq<(K, V)>, p: (K, V), k: K)
    ensures ValueSet(ps + [p], k) == ValueSet(ps, k) + (if p.0 == k then {p.1} else {})
  {
    assert forall x :: x in ps + [p] <==> x in ps || x == p;
  }

  /** A key absent from ps has no values in it. */
  lemma ValueSetAbsent<K, V>(ps: seq<(K, V)>, k: K)
    requires k !in Keys(ps)
    ensures ValueSet(ps, k) == {}
  {
    forall x | x in ps ensures x.0 != k {
      var i :| 0 <= i < |ps| && ps[i] == x;
      assert Keys(ps)[i] == x.0;
    }
  }

  lemma {:induction false} ValueListSnoc<K, V>(ps: seq<(K, V)>, p: (K, V), k: K)
    ensures ValueList(ps + [p], k) == ValueList(ps, k) + (if p.0 == k then [p.1] else [])
  {
    assert (ps + [p])[..|ps|] == ps;
  }

  /** The values of a key in a concatenation: its values in the first part,
      then in the second. */
  lemma {:induction false} ValueListAppend<K, V>(a: seq<(K, V)>, b: seq<(K, V)>, k: K)
    ensures ValueList(a + b, k) == ValueList(a, k) + ValueList(b, k)
  {
    if b == [] {
      assert a + b == a;
    } else {
      var c, y := b[..|b| - 1], b[|b| - 1];
      ValueListAppend(a, c, k);
      SplitLast(b);
      AppendAssoc(a, c, [y]);
      ValueListSnoc(a + c, y, k);
      ValueListSnoc(c, y, k);
      AppendAssoc(ValueList(a, k), ValueList(c, k), if y.0 == k then [y.1] else []);
    }
  }

  /** (k, v) occurs in ps exactly when v is among k's values in ps. */
  lemma {:induction false} ValueListMember<K, V>(ps: seq<(K, V)>, k: K, v: V)
    ensures v in ValueList(ps, k) <==> (k, v) in ps
  {
    if ps != [] {
      var q, p := ps[..|ps| - 1], ps[|ps| - 1];
      SplitLast(ps);
      ValueListMember(q, k, v);
      ValueListSnoc(q, p, k);
    }
  }

  /** A pair of ps has its key among ps's keys. */
  lemma KeyOfMember<K, V>(ps: seq<(K, V)>, p: (K, V))
    requires p in ps
    ensures p.0 in Keys(ps)
  {
    var i :| 0 <= i < |ps| && ps[i] == p;
    assert Keys(ps)[i] == p.0;
  }

  /** A key absent from ps has no values in it. */
  lemma ValueListAbsent<K, V>(ps: seq<(K, V)>, k: K)
    requires k !in Keys(ps)
    ensures ValueList(ps, k) == []
  {
    if ValueList(ps, k) != [] {
      ValueListMember(ps, k, ValueList(ps, k)[0]);
      KeyOfMember(ps, (k, ValueList(ps, k)[0]));
    }
  }

  /** Set policy, keys: one entry per key of the input, in order of first
      occurrence, never the same key twice. */
  lemma {:induction false} MergedSetsKeys<K, V>(ps: seq<(K, V)>)
    ensures Keys(MergedSets(ps)) == Dedup(Keys(ps))
    ensures DistinctKeys(MergedSets(ps))
  {
    if ps != [] {
      var q, p := ps[..|ps| - 1], ps[|ps| - 1];
      SplitLast(ps);
      MergedSetsKeys(q);
      MergedSetsSnoc(q, p);
      DedupMembers(Keys(q));
      KeysSnoc(q, p);
      DedupSnoc(Keys(q), p.0);
    }
  }

  /** Looking up after an add: the added key gains v (a new key starts from
      the empty set); other keys answer as before. */
  lemma AddToSetGet<K, V>(m: seq<(K, set<V>)>, k0: K, v: V, k: K)
    requires k in Keys(m) || k == k0
    ensures k in Keys(AddToSet(m, k0, v))
    ensures Get(AddToSet(m, k0, v), k) ==
            if k != k0 then Get(m, k) else (if k in Keys(m) then Get(m, k) else {}) + {v}
  {
  }

  /** Set policy, values: each key holds the set of all values paired with
      it in the input. */
  lemma {:induction false} MergedSetsValues<K, V>(ps: seq<(K, V)>, k: K)
    requires k in Keys(MergedSets(ps))
    ensures Get(MergedSets(ps), k) == ValueSet(ps, k)
  {
    assert ps != [];
    var q, p := ps[..|ps| - 1], ps[|ps| - 1];
    SplitLast(ps);
    var m := MergedSets(q);
    assert MergedSets(ps) == AddToSet(m, p.0, p.1);
    ValueSetSnoc(q, p, k);
    if k != p.0 {
      assert k in Keys(m);
      AddToSetGet(m, p.0, p.1, k);
      MergedSetsValues(q, k);
    } else if k in Keys(m) {
      AddToSetGet(m, p.0, p.1, k);
      MergedSetsValues(q, k);
    } else {
      AddToSetGet(m, p.0, p.1, k);
      MergedSetsKeys(q);
      DedupMembers(Keys(q));
      ValueSetAbsent(q, k);
    }
  }

  lemma MergedSetsSpec<K, V>(ps: seq<(K, V)>)
    ensures Keys(MergedSets(ps)) == Dedup(Keys(ps)) && DistinctKeys(MergedSets(ps))
    ensures forall k :: k in Keys(MergedSets(ps)) ==> Get(MergedSets(ps), k) == ValueSet(ps, k)
  {
    MergedSetsKeys(ps);
    forall k | k in Keys(MergedSets(ps)) ensures Get(MergedSets(ps), k) == ValueSet(ps, k) {
      MergedSetsValues(ps, k);
    }
  }

  /** List policy, keys: one entry per key of the input, in order of first
      occurrence, never the same key twice. */
  lemma {:induction false} MergedListsKeys<K, V>(ps: seq<(K, V)>)
    ensures Keys(MergedLists(ps)) == Dedup(Keys(ps))
    ensures DistinctKeys(MergedLists(ps))
  {
    if ps != [] {
      var q, p := ps[..|ps| - 1], ps[|ps| - 1];
      SplitLast(ps);
      MergedListsKeys(q);
      MergedListsSnoc(q, p);
      DedupMembers(Keys(q));
      KeysSnoc(q, p);
      DedupSnoc(Keys(q), p.0);
      if p in q {
        KeyOfMember(q, p);
      }
    }
  }

  /** Looking up after an append: the appended key gains v at the end of
      its list (a new key starts from the empty list); other keys answer as
      before. */
  lemma AppendToListGet<K, V>(m: seq<(K, seq<V>)>, k0: K, v: V, k: K)
    requires k in Keys(m) || k == k0
    ensures k in Keys(AppendToList(m, k0, v))
    ensures Get(AppendToList(m, k0, v), k) ==
            if k != k0 then Get(m, k) else (if k in Keys(m) then Get(m, k) else []) + [v]
  {
  }

  /** List policy, values: each key holds every value paired with it in the
      input exactly once, in order of first occurrence. */
  lemma {:induction false} MergedListsValues<K, V>(ps: seq<(K, V)>, k: K)
    requires k in Keys(MergedLists(ps))
    ensures Get(MergedLists(ps), k) == Dedup(ValueList(ps, k))
  {
    var q, p := ps[..|ps| - 1], ps[|ps| - 1];
    SplitLast(ps);
    MergedListsSnoc(q, p);
    MergedListsKeys(q);
    DedupMembers(Keys(q));
    ValueListSnoc(q, p, k);
    var m := MergedLists(q);
    if p in q {
      KeyOfMember(q, p);
      assert MergedLists(ps) == m;
      MergedListsValues(q, k);
      if p.0 == k {
        ValueListMember(q, k, p.1);
        DedupSnoc(ValueList(q, k), p.1);
      } else {
        assert ValueList(ps, k) == ValueList(q, k);
      }
    } else {
      assert MergedLists(ps) == AppendToList(m, p.0, p.1);
      AppendToListGet(m, p.0, p.1, k);
      if k in Keys(m) {
        MergedListsValues(q, k);
      } else {
        ValueListAbsent(q, k);
      }
      if p.0 == k {
        ValueListMember(q, k, p.1);
        DedupSnoc(ValueList(q, k), p.1);
        assert Dedup(ValueList(ps, k)) == Dedup(ValueList(q, k)) + [p.1];
      } else {
        assert ValueList(ps, k) == ValueList(q, k);
      }
    }
  }

  lemma MergedListsSpec<K, V>(ps: seq<(K, V)>)
    ensures Keys(MergedLists(ps)) == Dedup(Keys(ps)) && DistinctKeys(MergedLists(ps))
    ensures forall k :: k in Keys(MergedLists(ps)) ==> Get(MergedLists(ps), k) == Dedup(ValueList(ps, k))
  {
    MergedListsKeys(ps);
    forall k | k in Keys(MergedLists(ps)) ensures Get(MergedLists(ps), k) == Dedup(ValueList(ps, k)) {
      MergedListsValues(ps, k);
    }
  }

  /** A key's merged list holds v exactly when the input paired that key
      with v. */
  lemma MergedListsMember<K, V>(ps: seq<(K, V)>, k: K, v: V)
    ensures (exists t :: 0 <= t < |MergedLists(ps)| && MergedLists(ps)[t].0 == k && v in MergedLists(ps)[t].1)
            <==> (k, v) in ps
  {
    var m := MergedLists(ps);
    MergedListsSpec(ps);
    DedupSpec(Keys(ps));
    ValueListMember(ps, k, v);
    DedupSpec(ValueList(ps, k));
    if (k, v) in ps {
      KeyOfMember(ps, (k, v));
      var t := IndexOf(m, k);
    }
    forall t | 0 <= t < |m| && m[t].0 == k && v in m[t].1 ensures (k, v) in ps {
      GetAt(m, t);
    }
  }

  /** The set-policy merge, as the source runs it: nested loops over the
      dicts and their items. */
  method MergeAsSets<K(==), V(==)>(dicts: seq<seq<(K, V)>>) returns (merged: seq<(K, set<V>)>)
    ensures merged == MergedSets(Flatten(dicts))
  {
    merged := [];
    for i := 0 to |dicts|
      invariant merged == MergedSets(Flatten(dicts[..i]))
    {
      var d := dicts[i];
      ghost var done := Flatten(dicts[..i]);
      assert done + d[..0] == done;
      for j := 0 to |d|
        invariant merged == MergedSets(done + d[..j])
      {
        var (k, v) := d[j];
        merged := AddToSet(merged, k, v);
        PrefixSnoc(done, d, j);
        MergedSetsSnoc(done + d[..j], d[j]);
      }
      assert d[..|d|] == d;
      FlattenPrefixSnoc(dicts, i);
    }
    assert dicts[..|dicts|] == dicts;
  }

  /** The list-policy merge, as the source runs it: the list `items` records
      every pair already appended, and a pair found there is skipped. */
  method MergeAsLists<K(==), V(==)>(dicts: seq<seq<(K, V)>>) returns (merged: seq<(K, seq<V>)>)
    ensures merged == MergedLists(Flatten(dicts))
  {
    merged := [];
    var items: seq<(K, V)> := [];
    for i := 0 to |dicts|
      invariant merged == MergedLists(Flatten(dicts[..i]))
      invariant forall p :: p in items <==> p in Flatten(dicts[..i])
    {
      var d := dicts[i];
      ghost var done := Flatten(dicts[..i]);
      assert done + d[..0] == done;
      for j := 0 to |d|
        invariant merged == MergedLists(done + d[..j])
        invariant forall p :: p in items <==> p in done + d[..j]
      {
        var (k, v) := d[j];
        if (k, v) !in items {
          merged := AppendToList(merged, k, v);
          items := items + [(k, v)];
        }
        PrefixSnoc(done, d, j);
        MergedListsSnoc(done + d[..j], d[j]);
      }
      assert d[..|d|] == d;
      FlattenPrefixSnoc(dicts, i);
    }
    assert dicts[..|dicts|] == dicts;
  }
}
