/** `GoToWhere.dict_subset`: the participants' records taken out of the user
    table. The list of requested names is swept first: a name not found
    among the table's normalised keys is warned about and removed from the
    caller's list, while that list is being iterated. Then the table entries
    whose normalised key matches a remaining normalised name are kept. */
module Subset {
  import opened Text
  import opened Seqs
  import opened Dicts

  /** `s.remove(x)`: drops the first occurrence of x. */
  function RemoveFirst<T(==)>(s: seq<T>, x: T): (r: seq<T>)
    requires x in s
    ensures |r| == |s| - 1
  {
    var i := FirstIndex(s, x);
    s[..i] + s[i + 1..]
  }

  /** Removing x takes away exactly one occurrence of x. */
  lemma RemoveFirstCounts<T>(s: seq<T>, x: T)
    requires x in s
    ensures multiset(RemoveFirst(s, x)) + multiset{x} == multiset(s)
  {
    var i := FirstIndex(s, x);
    assert s == s[..i] + [x] + s[i + 1..];
  }

  /** The caller's list of requested names, which dict_subset shortens in
      place. */
  class NameList {
    var names: seq<String>

    constructor (names: seq<String>)
      ensures this.names == names
    {
      this.names := names;
    }

    /** `list.remove`: the name must be present (Python raises ValueError
        otherwise). */
    method Remove(name: String)
      requires name in names
      modifies this
      ensures names == RemoveFirst(old(names), name)
    {
      names := RemoveFirst(names, name);
    }
  }

  /** What the sweep leaves: the names still in the list and, in order, the
      names it warned about and removed. */
  datatype Swept = Swept(remaining: seq<String>, warned: seq<String>)

  /** One iteration of the loop, at iterator position i < |names|: a known
      name stays; an unknown one is warned about and its first occurrence
      removed. Returns the new list and what was warned about. */
  function Visit(names: seq<String>, known: seq<String>, i: nat): (r: Swept)
    requires i < |names|
    ensures r.warned == (if names[i] in known then [] else [names[i]])
    ensures |r.remaining| + |r.warned| == |names|
  {
    if names[i] in known then Swept(names, []) else Swept(RemoveFirst(names, names[i]), [names[i]])
  }

  /** A visit loses no name: what stays and what is warned about make up
      the list visited. */
  lemma VisitCounts(names: seq<String>, known: seq<String>, i: nat)
    requires i < |names|
    ensures multiset(Visit(names, known, i).remaining) + multiset(Visit(names, known, i).warned) == multiset(names)
  {
    if names[i] !in known {
      RemoveFirstCounts(names, names[i]);
    }
  }

  /** One step of the sweep, as the loop takes it. */
  lemma SweepUnfold(names: seq<String>, known: seq<String>, i: nat, warned: seq<String>)
    requires i < |names|
    ensures var v := Visit(names, known, i);
            Swept(Sweep(names, known, i).remaining, warned + Sweep(names, known, i).warned) ==
            Swept(Sweep(v.remaining, known, i + 1).remaining, (warned + v.warned) + Sweep(v.remaining, known, i + 1).warned)
  {
  }

  /** The sweep as Python runs it, from iterator position i on: the list
      iterator reads the element at its position and then moves one on, so
      after a removal the name that slides into the current position is
      never looked at. A name counts as known only if it equals a normalised
      key exactly. */
  function Sweep(names: seq<String>, known: seq<String>, i: nat): Swept
    decreases |names| + 1 - i
  {
    if i >= |names| then Swept(names, [])
    else
      var v := Visit(names, known, i);
      var s := Sweep(v.remaining, known, i + 1);
      Swept(s.remaining, v.warned + s.warned)
  }

  lemma CountsStep<T>(left: seq<T>, w1: seq<T>, w2: seq<T>, mid: seq<T>, all: seq<T>)
    requires multiset(left) + multiset(w2) == multiset(mid)
    requires multiset(mid) + multiset(w1) == multiset(all)
    ensures multiset(left) + multiset(w1 + w2) == multiset(all)
  {
    assert multiset(w1 + w2) == multiset(w1) + multiset(w2);
  }

  /** The sweep only removes names, and every name it removes is warned
      about: the names left and the names warned about add up to the names
      given. */
  lemma {:induction false} SweepCounts(names: seq<String>, known: seq<String>, i: nat)
    ensures multiset(Sweep(names, known, i).remaining) + multiset(Sweep(names, known, i).warned) == multiset(names)
    decreases |names| + 1 - i
  {
    if i < |names| {
      var v := Visit(names, known, i);
      VisitCounts(names, known, i);
      SweepCounts(v.remaining, known, i + 1);
      var s := Sweep(v.remaining, known, i + 1);
      assert Sweep(names, known, i) == Swept(s.remaining, v.warned + s.warned);
      CountsStep(s.remaining, v.warned, s.warned, v.remaining, names);
    }
  }

  /** Only names that are not known are warned about (and so removed). */
  lemma {:induction false} SweepWarnsUnknown(names: seq<String>, known: seq<String>, i: nat)
    ensures forall w :: w in Sweep(names, known, i).warned ==> w !in known
    decreases |names| + 1 - i
  {
    if i < |names| {
      SweepWarnsUnknown(Visit(names, known, i).remaining, known, i + 1);
    }
  }

  /** A known name keeps all of its occurrences. */
  lemma {:induction false} SweepKeepsKnown(names: seq<String>, known: seq<String>, i: nat, x: String)
    requires x in known
    ensures multiset(Sweep(names, known, i).remaining)[x] == multiset(names)[x]
    decreases |names| + 1 - i
  {
    if i < |names| {
      var v := Visit(names, known, i);
      VisitCounts(names, known, i);
      SweepKeepsKnown(v.remaining, known, i + 1, x);
      assert x !in v.warned;
    }
  }

  /** When every requested name is known, nothing is removed or warned
      about. */
  lemma {:induction false} SweepAllKnown(names: seq<String>, known: seq<String>, i: nat)
    requires forall x :: x in names ==> x in known
    ensures Sweep(names, known, i) == Swept(names, [])
    decreases |names| + 1 - i
  {
    if i < |names| {
      assert Visit(names, known, i) == Swept(names, []);
      SweepAllKnown(names, known, i + 1);
    }
  }

  /** Removing while iterating skips the next name: of two unknown names in
      a row only the first is warned about and removed. */
  lemma SweepSkipsNext()
    ensures Sweep(["x", "x"], [], 0) == Swept(["x"], ["x"])
  {
    assert RemoveFirst(["x", "x"], "x") == ["x"];
  }

  /** The exact comparison against normalised keys rejects a name that is
      not already normalised, even when its normal form is a key. */
  lemma SweepRejectsUnnormalised()
    ensures Norm("Ann") == "ann"
    ensures Sweep(["Ann"], ["ann"], 0) == Swept([], ["Ann"])
  {
    assert Lead("Ann") == 0 && Trail("Ann") == 0;
    assert RemoveFirst(["Ann"], "Ann") == [];
  }

  /** The normal forms of the table's keys. */
  function KeyNorms<V>(table: seq<(String, V)>): seq<String> {
    NormAll(Keys(table))
  }

  /** The subset comprehension: entries whose normalised key is among the
      normalised names. */
  function Select<V>(table: seq<(String, V)>, names: seq<String>): seq<(String, V)> {
    Filter(table, (e: (String, V)) => Norm(e.0) in NormAll(names))
  }

  /** The subset is the table with entries left out, in table order; it
      keeps exactly the entries whose normalised key matches a normalised
      name; it is again a case-insensitive table. */
  lemma SelectSpec<V>(table: seq<(String, V)>, names: seq<String>)
    ensures IsSubsequence(Select(table, names), table)
    ensures forall e :: e in Select(table, names) <==>
              e in table && exists n :: n in names && Norm(n) == Norm(e.0)
    ensures IsTable(table) ==> IsTable(Select(table, names))
  {
    var p := (e: (String, V)) => Norm(e.0) in NormAll(names);
    FilterSpec(table, p);
    forall e ensures p(e) <==> exists n :: n in names && Norm(n) == Norm(e.0) {
      if p(e) {
        var k :| 0 <= k < |names| && NormAll(names)[k] == Norm(e.0);
        assert names[k] in names;
      }
      if exists n :: n in names && Norm(n) == Norm(e.0) {
        var n :| n in names && Norm(n) == Norm(e.0);
        var k :| 0 <= k < |names| && names[k] == n;
        assert NormAll(names)[k] == Norm(e.0);
      }
    }
    if IsTable(table) {
      FilterKeepsApart(table, p, (e: (String, V)) => Lower(e.0));
    }
  }

  /** Every name the sweep leaves was given. */
  lemma SweepRemainingGiven(names: seq<String>, known: seq<String>, y: String)
    requires y in Sweep(names, known, 0).remaining
    ensures y in names
  {
    SweepCounts(names, known, 0);
    assert multiset(Sweep(names, known, 0).remaining)[y] > 0;
    assert multiset(names)[y] > 0;
  }

  /** A known name that was given is still there after the sweep. */
  lemma SweepKnownStays(names: seq<String>, known: seq<String>, x: String)
    requires x in known && x in names
    ensures x in Sweep(names, known, 0).remaining
  {
    SweepKeepsKnown(names, known, 0, x);
    assert multiset(names)[x] > 0;
  }

  /** For a normalised name x, being the normal form of a remaining name and
      having been requested are the same, when x is known. */
  lemma NormalisedMatch(names: seq<String>, known: seq<String>, x: String)
    requires forall n :: n in names ==> Norm(n) == n
    requires x in known && Norm(x) == x
    ensures x in NormAll(Sweep(names, known, 0).remaining) <==> x in names
  {
    var rest := Sweep(names, known, 0).remaining;
    if x in names {
      SweepKnownStays(names, known, x);
      var k :| 0 <= k < |rest| && rest[k] == x;
      assert NormAll(rest)[k] == x;
    }
    if x in NormAll(rest) {
      var k :| 0 <= k < |rest| && NormAll(rest)[k] == x;
      SweepRemainingGiven(names, known, rest[k]);
    }
  }

  /** With names already stripped and lower-cased, as the command-line entry
      point supplies them, the sweep's skipping does not reach the result:
      the subset is every entry whose normalised key was requested. */
  lemma DictSubsetNormalised<V>(table: seq<(String, V)>, names: seq<String>)
    requires forall n :: n in names ==> Norm(n) == n
    ensures Select(table, Sweep(names, KeyNorms(table), 0).remaining)
            == Filter(table, (e: (String, V)) => Norm(e.0) in names)
  {
    var known := KeyNorms(table);
    var rest := Sweep(names, known, 0).remaining;
    var p := (e: (String, V)) => Norm(e.0) in NormAll(rest);
    var q := (e: (String, V)) => Norm(e.0) in names;
    forall e | e in table ensures p(e) == q(e) {
      var i :| 0 <= i < |table| && table[i] == e;
      assert known[i] == Norm(e.0);
      NormIdempotent(e.0);
      NormalisedMatch(names, known, Norm(e.0));
    }
    FilterCongruent(table, p, q);
  }

  /** dict_subset: sweeps the caller's list in place (the warnings it logs
      are returned as a ghost list), then builds the subset from what is
      left of it. */
  method DictSubset<V>(inputList: NameList, dicData: seq<(String, V)>)
    returns (sub: seq<(String, V)>, ghost warned: seq<String>)
    modifies inputList
    ensures Swept(inputList.names, warned) == Sweep(old(inputList.names), KeyNorms(dicData), 0)
    ensures sub == Select(dicData, inputList.names)
  {
    var known := KeyNorms(dicData);
    ghost var start := inputList.names;
    warned := [];
    var i := 0;
    while i < |inputList.names|
      invariant i <= |inputList.names| + 1
      invariant Sweep(start, known, 0) ==
                Swept(Sweep(inputList.names, known, i).remaining, warned + Sweep(inputList.names, known, i).warned)
      decreases |inputList.names| + 1 - i
    {
      ghost var cur := inputList.names;
      var name := inputList.names[i];
      SweepUnfold(cur, known, i, warned);
      ghost var v := Visit(cur, known, i);
      if name !in known {
        warned := warned + [name];
        inputList.Remove(name);
      } else {
        assert warned + v.warned == warned;
      }
      assert inputList.names == v.remaining;
      i := i + 1;
    }
    assert warned + [] == warned;
    sub := Select(dicData, inputList.names);
  }
}
