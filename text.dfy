/** The string normalisation the recommendation engine applies to names,
    foods and drinks: Python's str.strip(), str.lower() and the first token
    of str.split(), over ASCII. */
module Text {

  type String = seq<char>

  /** Python's str.isspace() on an ASCII character: tab, line feed, vertical
      tab, form feed, carriage return, the separators 0x1c-0x1f and space. */
  predicate IsSpace(c: char) {
    9 <= c as int <= 13 || 28 <= c as int <= 32
  }

  /** The number of whitespace characters s starts with. */
  function Lead(s: String): (n: nat)
    ensures n <= |s|
  {
    if s != [] && IsSpace(s[0]) then 1 + Lead(s[1..]) else 0
  }

  /** Lead(s) counts blanks up to the first non-blank character. */
  lemma {:induction false} LeadSpec(s: String)
    ensures forall k :: 0 <= k < Lead(s) ==> IsSpace(s[k])
    ensures Lead(s) == |s| || !IsSpace(s[Lead(s)])
  {
    if s != [] && IsSpace(s[0]) {
      LeadSpec(s[1..]);
    }
  }

  /** The number of whitespace characters s ends with. */
  function Trail(s: String): (n: nat)
    ensures n <= |s|
  {
    if s != [] && IsSpace(s[|s| - 1]) then 1 + Trail(s[..|s| - 1]) else 0
  }

  /** Trail(s) counts blanks back to the last non-blank character. */
  lemma {:induction false} TrailSpec(s: String)
    ensures forall k :: |s| - Trail(s) <= k < |s| ==> IsSpace(s[k])
    ensures Trail(s) == |s| || !IsSpace(s[|s| - 1 - Trail(s)])
  {
    if s != [] && IsSpace(s[|s| - 1]) {
      TrailSpec(s[..|s| - 1]);
    }
  }

  /** str.strip(): the slice of s between its leading and its trailing
      blanks. */
  function Strip(s: String): (r: String)
    ensures |r| <= |s|
  {
    var i := Lead(s);
    if i == |s| then []
    else
      LeadSpec(s);
      TrailSpec(s);
      s[i..|s| - Trail(s)]
  }

  /** The strip of s starts and ends with a non-blank, is the slice of s
      after its Lead(s) leading blanks, and only blanks surround it. */
  lemma StripSpec(s: String)
    ensures Strip(s) == [] || (!IsSpace(Strip(s)[0]) && !IsSpace(Strip(s)[|Strip(s)| - 1]))
    ensures Lead(s) + |Strip(s)| <= |s| && Strip(s) == s[Lead(s)..Lead(s) + |Strip(s)|]
    ensures forall k :: 0 <= k < Lead(s) ==> IsSpace(s[k])
    ensures forall k :: Lead(s) + |Strip(s)| <= k < |s| ==> IsSpace(s[k])
  {
    LeadSpec(s);
    TrailSpec(s);
  }

  /** str.lower() on one ASCII character. */
  function LowerChar(c: char): char {
    if 'A' <= c <= 'Z' then (c as int + 32) as char else c
  }

  /** str.lower() over ASCII. */
  function Lower(s: String): String {
    seq(|s|, i requires 0 <= i < |s| => LowerChar(s[i]))
  }

  /** The normal form the engine compares names, foods and drinks in:
      `x.strip().lower()`. */
  function Norm(s: String): String {
    Lower(Strip(s))
  }

  /** The normal forms of a list of strings, in order. */
  function NormAll(xs: seq<String>): seq<String> {
    seq(|xs|, i requires 0 <= i < |xs| => Norm(xs[i]))
  }

  /** `set(x.strip().lower() for x in xs)`. */
  function NormSet(xs: seq<String>): set<String> {
    set x | x in xs :: Norm(x)
  }

  /** A string with no blank at either end is its own strip. */
  lemma StripTrimmed(s: String)
    requires s == [] || (!IsSpace(s[0]) && !IsSpace(s[|s| - 1]))
    ensures Strip(s) == s
  {
    assert Lead(s) == 0 && Trail(s) == 0;
  }

  /** Lower-casing neither makes nor removes a blank, and is idempotent. */
  lemma LowerFacts(s: String)
    ensures |Lower(s)| == |s|
    ensures forall k :: 0 <= k < |s| ==> IsSpace(Lower(s)[k]) == IsSpace(s[k])
    ensures Lower(Lower(s)) == Lower(s)
  {
  }

  /** Normalising twice is normalising once: a name the caller has already
      stripped and lower-cased is its own normal form. */
  lemma NormIdempotent(s: String)
    ensures Norm(Norm(s)) == Norm(s)
  {
    var t := Strip(s);
    var l := Lower(t);
    StripSpec(s);
    LowerFacts(t);
    StripTrimmed(l);
  }

  /** s holds a non-whitespace character, so `s.split()` is not empty. */
  predicate HasToken(s: String) {
    exists i :: 0 <= i < |s| && !IsSpace(s[i])
  }

  /** The longest prefix of s without whitespace. */
  function TakeWord(s: String): (r: String)
    ensures |r| <= |s|
  {
    if s == [] || IsSpace(s[0]) then [] else [s[0]] + TakeWord(s[1..])
  }

  /** TakeWord(s) is a prefix of s without blanks, ended by a blank or by
      the end of s. */
  lemma {:induction false} TakeWordSpec(s: String)
    ensures TakeWord(s) == s[..|TakeWord(s)|]
    ensures forall k :: 0 <= k < |TakeWord(s)| ==> !IsSpace(TakeWord(s)[k])
    ensures |TakeWord(s)| == |s| || IsSpace(s[|TakeWord(s)|])
  {
    if s != [] && !IsSpace(s[0]) {
      TakeWordSpec(s[1..]);
    }
  }

  /** `s.split()[0]`: the first maximal run of non-whitespace characters. */
  function FirstToken(s: String): (r: String)
    requires HasToken(s)
    ensures r != []
  {
    LeadSpec(s);
    TakeWord(s[Lead(s)..])
  }

  /** The first token is a non-empty run of non-blanks that starts after
      the leading blanks and ends at a blank or at the end of s. */
  lemma FirstTokenSpec(s: String)
    requires HasToken(s)
    ensures forall k :: 0 <= k < |FirstToken(s)| ==> !IsSpace(FirstToken(s)[k])
    ensures Lead(s) + |FirstToken(s)| <= |s| && FirstToken(s) == s[Lead(s)..Lead(s) + |FirstToken(s)|]
    ensures Lead(s) + |FirstToken(s)| == |s| || IsSpace(s[Lead(s) + |FirstToken(s)|])
  {
    var i := Lead(s);
    TakeWordSpec(s[i..]);
  }

  /** Stripping keeps every non-whitespace character, so a stripped name
      still has a first token. */
  lemma HasTokenStrip(s: String)
    requires HasToken(s)
    ensures HasToken(Strip(s))
  {
    var j :| 0 <= j < |s| && !IsSpace(s[j]);
    var r, l := Strip(s), Lead(s);
    StripSpec(s);
    assert l <= j < l + |r|;
    assert r[j - l] == s[j];
  }
}
