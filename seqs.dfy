/** Sequence notions the engine's promises are stated in: no duplicates,
    first-occurrence de-duplication, filtering (a Python comprehension with
    an `if`), order-preserving sub-sequences and flattening. */
module Seqs {

  /** No element occurs twice. */
  predicate Distinct<T(==)>(s: seq<T>) {
    forall i, j :: 0 <= i < j < |s| ==> s[i] != s[j]
  }

  /** The position of the first occurrence of x in s. */
  function FirstIndex<T(==)>(s: seq<T>, x: T): (i: nat)
    requires x in s
    ensures i < |s| && s[i] == x && x !in s[..i]
  {
    if s[0] == x then 0
    else
      assert x in s[1..] by { var k :| 0 <= k < |s| && s[k] == x; assert s[1..][k - 1] == x; }
      var j := FirstIndex(s[1..], x);
      assert s[..j + 1] == [s[0]] + s[1..][..j];
      1 + j
  }

  /** A position holding x with no x before it is the first index of x. */
  lemma FirstIndexUnique<T>(s: seq<T>, x: T, i: nat)
    requires i < |s| && s[i] == x && x !in s[..i]
    ensures FirstIndex(s, x) == i
  {
    var f := FirstIndex(s, x);
  }

  /** Appending to s does not move the first occurrence of what s holds. */
  lemma FirstIndexSnoc<T>(s: seq<T>, y: T, x: T)
    requires x in s
    ensures x in s + [y] && FirstIndex(s + [y], x) == FirstIndex(s, x)
  {
    var i := FirstIndex(s, x);
    assert (s + [y])[..i] == s[..i];
    FirstIndexUnique(s + [y], x, i);
  }

  /** The elements of s, each once, in the order of their first occurrence
      (what skipping an element already seen while walking s leaves). */
  function Dedup<T(==)>(s: seq<T>): seq<T> {
    if s == [] then []
    else if s[|s| - 1] in s[..|s| - 1] then Dedup(s[..|s| - 1])
    else Dedup(s[..|s| - 1]) + [s[|s| - 1]]
  }

  /** Dedup keeps exactly the elements of s, once each, ordered by first
      occurrence in s: the three facts determine it. */
  lemma {:induction false} DedupSpec<T>(s: seq<T>)
    ensures Distinct(Dedup(s))
    ensures forall x :: x in Dedup(s) <==> x in s
    ensures forall i, j :: 0 <= i < j < |Dedup(s)| ==>
              FirstIndex(s, Dedup(s)[i]) < FirstIndex(s, Dedup(s)[j])
  {
    if s != [] {
      var t, x := s[..|s| - 1], s[|s| - 1];
      assert s == t + [x];
      DedupSpec(t);
      forall y | y in t ensures FirstIndex(s, y) == FirstIndex(t, y) {
        FirstIndexSnoc(t, x, y);
      }
      if x !in t {
        FirstIndexUnique(s, x, |t|);
        var d := Dedup(t);
        assert Dedup(s) == d + [x];
        forall i, j | 0 <= i < j < |Dedup(s)|
          ensures FirstIndex(s, Dedup(s)[i]) < FirstIndex(s, Dedup(s)[j])
        {
          if j == |d| {
            assert Dedup(s)[i] == d[i] && d[i] in d;
          } else {
            assert Dedup(s)[i] == d[i] && Dedup(s)[j] == d[j];
          }
        }
      }
    }
  }

  /** Dedup keeps exactly the elements of s. */
  lemma DedupMembers<T>(s: seq<T>)
    ensures forall x :: x in Dedup(s) ==> x in s
    ensures forall x :: x in s ==> x in Dedup(s)
  {
    DedupSpec(s);
  }

  /** Dedup keeps each element once. */
  lemma DedupDistinct<T>(s: seq<T>)
    ensures Distinct(Dedup(s))
  {
    DedupSpec(s);
  }

  /** De-duplicating a concatenation whose second part shares nothing with
      its first de-duplicates the parts separately. */
  lemma {:induction false} DedupAppend<T>(a: seq<T>, b: seq<T>)
    requires forall x :: x in b ==> x !in a
    ensures Dedup(a + b) == Dedup(a) + Dedup(b)
  {
    if b == [] {
      assert a + b == a;
    } else {
      var c, y := b[..|b| - 1], b[|b| - 1];
      DedupAppend(a, c);
      assert (a + b)[..|a + b| - 1] == a + c;
      assert (a + b)[|a + b| - 1] == y;
      assert y in a + c <==> y in c;
    }
  }

  /** Appending an element already present changes nothing; appending a new
      one adds it at the end. */
  lemma DedupSnoc<T>(s: seq<T>, x: T)
    ensures Dedup(s + [x]) == if x in s then Dedup(s) else Dedup(s) + [x]
  {
    assert (s + [x])[..|s|] == s;
  }

  /** `[x for x in s if p(x)]`. */
  function Filter<T>(s: seq<T>, p: T -> bool): seq<T> {
    if s == [] then []
    else Filter(s[..|s| - 1], p) + (if p(s[|s| - 1]) then [s[|s| - 1]] else [])
  }

  /** a is b with some elements left out, the rest in their order. */
  predicate IsSubsequence<T(==)>(a: seq<T>, b: seq<T>)
    decreases |b|
  {
    a == []
    || (b != []
        && (IsSubsequence(a, b[..|b| - 1])
            || (a[|a| - 1] == b[|b| - 1] && IsSubsequence(a[..|a| - 1], b[..|b| - 1]))))
  }

  /** A filter keeps exactly the elements that pass the test, in their order. */
  lemma {:induction false} FilterSpec<T>(s: seq<T>, p: T -> bool)
    ensures forall x :: x in Filter(s, p) <==> x in s && p(x)
    ensures IsSubsequence(Filter(s, p), s)
  {
    if s != [] {
      var t, x := s[..|s| - 1], s[|s| - 1];
      assert s == t + [x];
      assert s[..|s| - 1] == t;
      FilterSpec(t, p);
      var f := Filter(s, p);
      if p(x) {
        assert f[..|f| - 1] == Filter(t, p) && f[|f| - 1] == s[|s| - 1];
        assert IsSubsequence(f, s);
      } else {
        assert f == Filter(t, p);
        assert IsSubsequence(f, s);
      }
    }
  }

  /** Where in s the i-th element a filter keeps comes from. */
  lemma {:induction false} FilterSource<T>(s: seq<T>, p: T -> bool, i: nat) returns (k: nat)
    requires i < |Filter(s, p)|
    ensures k < |s| && s[k] == Filter(s, p)[i]
  {
    var t := s[..|s| - 1];
    if i < |Filter(t, p)| {
      k := FilterSource(t, p, i);
    } else {
      k := |s| - 1;
    }
  }

  /** Elements a filter keeps stay apart under g when all of s was. */
  lemma {:induction false} FilterKeepsApart<T, U>(s: seq<T>, p: T -> bool, g: T -> U)
    requires forall i, j :: 0 <= i < j < |s| ==> g(s[i]) != g(s[j])
    ensures forall i, j :: 0 <= i < j < |Filter(s, p)| ==> g(Filter(s, p)[i]) != g(Filter(s, p)[j])
  {
    if s != [] {
      var t, x := s[..|s| - 1], s[|s| - 1];
      FilterKeepsApart(t, p, g);
      FilterSpec(t, p);
      forall i | 0 <= i < |Filter(t, p)| ensures g(Filter(t, p)[i]) != g(x) {
        var k := FilterSource(t, p, i);
        assert s[k] == t[k];
      }
    }
  }

  /** Two tests that agree on s filter it alike. */
  lemma {:induction false} FilterCongruent<T>(s: seq<T>, p: T -> bool, q: T -> bool)
    requires forall x :: x in s ==> p(x) == q(x)
    ensures Filter(s, p) == Filter(s, q)
  {
    if s != [] {
      var t := s[..|s| - 1];
      assert forall x :: x in t ==> x in s;
      FilterCongruent(t, p, q);
    }
  }

  /** A non-empty sequence is its front followed by its last element. */
  lemma SplitLast<T>(s: seq<T>)
    requires s != []
    ensures s == s[..|s| - 1] + [s[|s| - 1]]
  {
  }

  /** Taking one more element of d extends the prefix by that element. */
  lemma PrefixSnoc<T>(a: seq<T>, d: seq<T>, j: nat)
    requires j < |d|
    ensures a + d[..j + 1] == (a + d[..j]) + [d[j]]
  {
    assert d[..j + 1] == d[..j] + [d[j]];
  }

  /** The concatenation of a list of lists. */
  function Flatten<T>(ds: seq<seq<T>>): seq<T> {
    if ds == [] then [] else Flatten(ds[..|ds| - 1]) + ds[|ds| - 1]
  }

  lemma {:induction false} FlattenAppend<T>(a: seq<seq<T>>, b: seq<seq<T>>)
    ensures Flatten(a + b) == Flatten(a) + Flatten(b)
  {
    if b == [] {
      assert a + b == a;
    } else {
      var c := b[..|b| - 1];
      FlattenAppend(a, c);
      assert (a + b)[..|a + b| - 1] == a + c;
    }
  }

  lemma FlattenSnoc<T>(a: seq<seq<T>>, d: seq<T>)
    ensures Flatten(a + [d]) == Flatten(a) + d
  {
    assert (a + [d])[..|a|] == a;
  }

  /** Flattening one more list of ds appends that list. */
  lemma FlattenPrefixSnoc<T>(ds: seq<seq<T>>, i: nat)
    requires i < |ds|
    ensures Flatten(ds[..i + 1]) == Flatten(ds[..i]) + ds[i]
  {
    assert ds[..i + 1][..i] == ds[..i];
  }

  /** An element of a flattened list comes from one of the lists. */
  lemma {:induction false} FlattenMember<T>(ds: seq<seq<T>>, x: T)
    ensures x in Flatten(ds) <==> exists i :: 0 <= i < |ds| && x in ds[i]
  {
    if ds != [] {
      var c := ds[..|ds| - 1];
      FlattenMember(c, x);
      if exists i :: 0 <= i < |c| && x in c[i] {
        var i :| 0 <= i < |c| && x in c[i];
        assert ds[i] == c[i];
      }
      if exists i :: 0 <= i < |ds| && x in ds[i] {
        var i :| 0 <= i < |ds| && x in ds[i];
        if i < |c| {
          assert c[i] == ds[i];
        }
      }
    }
  }

  /** The first j + 1 elements of s are its first j and then s[j]. */
  lemma TakeSnoc<T>(s: seq<T>, j: nat)
    requires j < |s|
    ensures s[..j + 1][..j] == s[..j] && s[..j + 1][j] == s[j]
  {
  }

  /** Each element as a one-element list (a list of one-entry dicts). */
  function Singletons<T>(s: seq<T>): (r: seq<seq<T>>)
    ensures |r| == |s|
  {
    seq(|s|, i requires 0 <= i < |s| => [s[i]])
  }

  /** Flattening the one-element lists gives back the elements. */
  lemma {:induction false} FlattenSingletons<T>(s: seq<T>)
    ensures Flatten(Singletons(s)) == s
  {
    if s != [] {
      var t := s[..|s| - 1];
      FlattenSingletons(t);
      assert Singletons(s)[..|s| - 1] == Singletons(t);
    }
  }

  lemma AppendAssoc<T>(a: seq<T>, b: seq<T>, c: seq<T>)
    ensures (a + b) + c == a + (b + c)
  {
  }

  /** Two duplicate-free lists with nothing in common concatenate to a
      duplicate-free list. */
  lemma DistinctAppend<T>(a: seq<T>, b: seq<T>)
    requires Distinct(a) && Distinct(b)
    requires forall x :: x in a ==> x !in b
    ensures Distinct(a + b)
  {
    forall i, j | 0 <= i < j < |a + b| ensures (a + b)[i] != (a + b)[j] {
      if i < |a| && |a| <= j {
        assert (a + b)[i] in a && (a + b)[j] == b[j - |a|];
      }
    }
  }

  /** Two duplicate-free lists, one of elements of one kind and one of
      elements of another, concatenate to a duplicate-free list with every
      element of the first kind ahead of every element of the second. */
  lemma KindsApart<T>(a: seq<T>, b: seq<T>, p: T -> bool, q: T -> bool)
    requires Distinct(a) && Distinct(b)
    requires forall x :: x in a ==> p(x) && !q(x)
    requires forall x :: x in b ==> q(x) && !p(x)
    ensures Distinct(a + b)
    ensures forall i, j :: 0 <= i < j < |a + b| ==> !(q((a + b)[i]) && p((a + b)[j]))
  {
    DistinctAppend(a, b);
    forall i, j | 0 <= i < j < |a + b| ensures !(q((a + b)[i]) && p((a + b)[j])) {
      if i < |a| {
        assert (a + b)[i] in a;
      } else {
        assert (a + b)[j] == b[j - |a|];
      }
    }
  }

  /** De-duplicating elements of one kind followed by elements of another
      keeps each once and every element of the first kind ahead of every
      element of the second. */
  lemma DedupKinds<T>(a: seq<T>, b: seq<T>, p: T -> bool, q: T -> bool)
    requires forall x :: x in a ==> p(x) && !q(x)
    requires forall x :: x in b ==> q(x) && !p(x)
    ensures Distinct(Dedup(a + b))
    ensures forall i, j :: 0 <= i < j < |Dedup(a + b)| ==> !(q(Dedup(a + b)[i]) && p(Dedup(a + b)[j]))
  {
    DedupAppend(a, b);
    DedupMembers(a);
    DedupMembers(b);
    DedupDistinct(a);
    DedupDistinct(b);
    KindsApart(Dedup(a), Dedup(b), p, q);
  }
}
