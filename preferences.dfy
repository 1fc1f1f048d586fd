/** `GoToWhere._user_preferences`: from the participants' records, which
    users will not eat each (normalised) food, and which (normalised) drinks
    each user accepts. */
module Preferences {
  import opened Text
  import opened Seqs
  import opened Dicts
  import opened Merge

  /** One user's record: each item ("wont_eat", "drinks", ...) with its list
      of strings. */
  type Prefs = seq<(String, seq<String>)>

  const WontEat: String := "wont_eat"
  const DrinksItem: String := "drinks"

  /** `bad_food_user_mappings`: food to the set of stripped user names that
      will not eat it; `user_drinks_mappings`: stripped user name to the set
      of normalised drinks. */
  datatype Preferences = Preferences(badFoodUsers: seq<(String, set<String>)>, userDrinks: seq<(String, set<String>)>)

  /** `{key.strip().lower(): user.strip() for key in foods}`: one entry per
      distinct normalised food, each mapped to the stripped user name. */
  function FoodRecord(user: String, foods: seq<String>): seq<(String, String)> {
    var ks := Dedup(NormAll(foods));
    seq(|ks|, i requires 0 <= i < |ks| => (ks[i], Strip(user)))
  }

  /** The records one user's items add to `food_user_mappings`. */
  function FoodRecordsOf(user: String, prefs: Prefs): seq<seq<(String, String)>> {
    if prefs == [] then []
    else
      var last := prefs[|prefs| - 1];
      FoodRecordsOf(user, prefs[..|prefs| - 1]) + (if last.0 == WontEat then [FoodRecord(user, last.1)] else [])
  }

  /** `food_user_mappings` after the given users. */
  function FoodRecords(users: seq<(String, Prefs)>): seq<seq<(String, String)>> {
    if users == [] then []
    else FoodRecords(users[..|users| - 1]) + FoodRecordsOf(users[|users| - 1].0, users[|users| - 1].1)
  }

  /** `user_drinks_mappings` m after one user's items: every "drinks" item
      (re)assigns the user's stripped name; a "wont_eat" item is taken by the
      first branch and never reaches this one. */
  function DrinksOf(m: seq<(String, set<String>)>, user: String, prefs: Prefs): seq<(String, set<String>)> {
    if prefs == [] then m
    else
      var m' := DrinksOf(m, user, prefs[..|prefs| - 1]);
      var last := prefs[|prefs| - 1];
      if last.0 != WontEat && last.0 == DrinksItem then Put(m', Strip(user), NormSet(last.1)) else m'
  }

  /** `user_drinks_mappings` after the given users. */
  function DrinkMap(users: seq<(String, Prefs)>): seq<(String, set<String>)> {
    if users == [] then []
    else DrinksOf(DrinkMap(users[..|users| - 1]), users[|users| - 1].0, users[|users| - 1].1)
  }

  /** What _user_preferences returns for the given users table. */
  function PreferencesOf(users: seq<(String, Prefs)>): Preferences {
    Preferences(MergedSets(Flatten(FoodRecords(users))), DrinkMap(users))
  }

  /** The user's "wont_eat" items list a food whose normal form is f. */
  predicate DislikesIn(prefs: Prefs, f: String) {
    exists item :: item in prefs && item.0 == WontEat && f in NormAll(item.1)
  }

  /** A user whose stripped name is n will not eat f. */
  predicate Dislikes(users: seq<(String, Prefs)>, f: String, n: String) {
    exists u :: u in users && Strip(u.0) == n && DislikesIn(u.1, f)
  }

  /** The user's record has a "drinks" item. */
  predicate HasDrinks(prefs: Prefs) {
    exists item :: item in prefs && item.0 == DrinksItem
  }

  /** A user with a "drinks" item whose stripped name is n. */
  predicate Drinker(users: seq<(String, Prefs)>, n: String) {
    exists u :: u in users && Strip(u.0) == n && HasDrinks(u.1)
  }

  lemma DislikesInSnoc(prefs: Prefs, f: String)
    requires prefs != []
    ensures DislikesIn(prefs, f) <==>
            DislikesIn(prefs[..|prefs| - 1], f)
            || (prefs[|prefs| - 1].0 == WontEat && f in NormAll(prefs[|prefs| - 1].1))
  {
    SplitLast(prefs);
  }

  lemma DislikesSnoc(users: seq<(String, Prefs)>, f: String, n: String)
    requires users != []
    ensures Dislikes(users, f, n) <==>
            Dislikes(users[..|users| - 1], f, n)
            || (Strip(users[|users| - 1].0) == n && DislikesIn(users[|users| - 1].1, f))
  {
    SplitLast(users);
  }

  lemma HasDrinksSnoc(prefs: Prefs)
    requires prefs != []
    ensures HasDrinks(prefs) <==> HasDrinks(prefs[..|prefs| - 1]) || prefs[|prefs| - 1].0 == DrinksItem
  {
    SplitLast(prefs);
  }

  lemma DrinkerSnoc(users: seq<(String, Prefs)>, n: String)
    requires users != []
    ensures Drinker(users, n) <==>
            Drinker(users[..|users| - 1], n) || (Strip(users[|users| - 1].0) == n && HasDrinks(users[|users| - 1].1))
  {
    SplitLast(users);
  }

  /** A food record pairs the stripped user name with each food's normal
      form, and holds each food once. */
  lemma FoodRecordSpec(user: String, foods: seq<String>)
    ensures DistinctKeys(FoodRecord(user, foods))
    ensures forall f, n :: (f, n) in FoodRecord(user, foods) <==> n == Strip(user) && f in NormAll(foods)
  {
    var ks := Dedup(NormAll(foods));
    var r := FoodRecord(user, foods);
    DedupSpec(NormAll(foods));
    assert Keys(r) == ks;
    forall f, n ensures (f, n) in r <==> n == Strip(user) && f in NormAll(foods) {
      if n == Strip(user) && f in NormAll(foods) {
        var i :| 0 <= i < |ks| && ks[i] == f;
        assert r[i] == (f, n);
      }
    }
  }

  /** Flattening a list of at most one record. */
  lemma FlattenOne(r: seq<(String, String)>)
    ensures Flatten([r]) == r
  {
    assert [r] == [] + [r];
    FlattenSnoc([], r);
  }

  /** The records one user's items add hold (f, n) exactly when n is the
      user's stripped name and the user will not eat f. */
  lemma {:induction false} FoodRecordsOfMember(user: String, prefs: Prefs, f: String, n: String)
    ensures (f, n) in Flatten(FoodRecordsOf(user, prefs)) <==> n == Strip(user) && DislikesIn(prefs, f)
  {
    if prefs != [] {
      var q, last := prefs[..|prefs| - 1], prefs[|prefs| - 1];
      FoodRecordsOfMember(user, q, f, n);
      DislikesInSnoc(prefs, f);
      if last.0 == WontEat {
        FlattenAppend(FoodRecordsOf(user, q), [FoodRecord(user, last.1)]);
        FlattenOne(FoodRecord(user, last.1));
        FoodRecordSpec(user, last.1);
      } else {
        assert FoodRecordsOf(user, prefs) == FoodRecordsOf(user, q);
      }
    }
  }

  /** The food records of all users hold (f, n) exactly when a user named n
      will not eat f. */
  lemma {:induction false} FoodRecordsMember(users: seq<(String, Prefs)>, f: String, n: String)
    ensures (f, n) in Flatten(FoodRecords(users)) <==> Dislikes(users, f, n)
  {
    if users != [] {
      var q, last := users[..|users| - 1], users[|users| - 1];
      FoodRecordsMember(q, f, n);
      FlattenAppend(FoodRecords(q), FoodRecordsOf(last.0, last.1));
      FoodRecordsOfMember(last.0, last.1, f, n);
      DislikesSnoc(users, f, n);
    }
  }

  /** bad_food_user_mappings holds each food once, and its set for food f
      contains the stripped name n exactly when that user will not eat f. */
  lemma BadFoodUsers(users: seq<(String, Prefs)>, f: String, n: String)
    ensures DistinctKeys(PreferencesOf(users).badFoodUsers)
    ensures var b := PreferencesOf(users).badFoodUsers;
            (f in Keys(b) && n in Get(b, f)) <==> Dislikes(users, f, n)
  {
    var ps := Flatten(FoodRecords(users));
    var b := MergedSets(ps);
    MergedSetsSpec(ps);
    DedupMembers(Keys(ps));
    FoodRecordsMember(users, f, n);
    if (f, n) in ps {
      var i :| 0 <= i < |ps| && ps[i] == (f, n);
      assert Keys(ps)[i] == f;
      assert n in ValueSet(ps, f);
    }
  }

  /** An entry of bad_food_user_mappings names a user who will not eat its
      food. */
  lemma BadFoodEntry(users: seq<(String, Prefs)>, e: (String, set<String>), n: String)
    requires e in PreferencesOf(users).badFoodUsers && n in e.1
    ensures Dislikes(users, e.0, n)
  {
    var b := PreferencesOf(users).badFoodUsers;
    var i :| 0 <= i < |b| && b[i] == e;
    BadFoodUsers(users, e.0, n);
    GetAt(b, i);
  }

  /** A user who will not eat f is in the entry of bad_food_user_mappings
      for f. */
  lemma DislikeEntry(users: seq<(String, Prefs)>, f: String, n: String) returns (e: (String, set<String>))
    requires Dislikes(users, f, n)
    ensures e in PreferencesOf(users).badFoodUsers && e.0 == f && n in e.1
  {
    var b := PreferencesOf(users).badFoodUsers;
    BadFoodUsers(users, f, n);
    var i := IndexOf(b, f);
    GetAt(b, i);
    e := b[i];
  }

  /** One user's items: a "drinks" item puts the user's stripped name in
      the map, and no other key is touched. */
  lemma {:induction false} DrinksOfKeys(m: seq<(String, set<String>)>, user: String, prefs: Prefs)
    ensures forall k :: k in Keys(DrinksOf(m, user, prefs)) <==> k in Keys(m) || (k == Strip(user) && HasDrinks(prefs))
    ensures forall k :: k in Keys(m) && k != Strip(user) ==> Get(DrinksOf(m, user, prefs), k) == Get(m, k)
    ensures DistinctKeys(m) ==> DistinctKeys(DrinksOf(m, user, prefs))
  {
    if prefs != [] {
      DrinksOfKeys(m, user, prefs[..|prefs| - 1]);
      HasDrinksSnoc(prefs);
    }
  }

  /** With no item named twice, the user's entry is the normalised set of
      their "drinks" list. */
  lemma {:induction false} DrinksOfValue(m: seq<(String, set<String>)>, user: String, prefs: Prefs, j: nat)
    requires DistinctKeys(prefs) && j < |prefs| && prefs[j].0 == DrinksItem
    ensures Strip(user) in Keys(DrinksOf(m, user, prefs))
    ensures Get(DrinksOf(m, user, prefs), Strip(user)) == NormSet(prefs[j].1)
  {
    var q, last := prefs[..|prefs| - 1], prefs[|prefs| - 1];
    if j < |q| {
      assert q[j] == prefs[j];
      assert DistinctKeys(q) by {
        forall a, b | 0 <= a < b < |q| ensures Keys(q)[a] != Keys(q)[b] {
          assert Keys(q)[a] == Keys(prefs)[a] && Keys(q)[b] == Keys(prefs)[b];
        }
      }
      DrinksOfValue(m, user, q, j);
      assert Keys(prefs)[j] == DrinksItem && Keys(prefs)[|q|] == last.0;
    }
  }

  /** user_drinks_mappings has one entry per stripped name of a user with a
      "drinks" item, each key once. */
  lemma {:induction false} DrinkMapKeys(users: seq<(String, Prefs)>)
    ensures DistinctKeys(DrinkMap(users))
    ensures forall n :: n in Keys(DrinkMap(users)) <==> Drinker(users, n)
  {
    if users != [] {
      var q, last := users[..|users| - 1], users[|users| - 1];
      DrinkMapKeys(q);
      DrinksOfKeys(DrinkMap(q), last.0, last.1);
      forall n ensures n in Keys(DrinkMap(users)) <==> Drinker(users, n) {
        DrinkerSnoc(users, n);
      }
    }
  }

  /** When stripped user names are distinct and no record names an item
      twice, a user's drinks entry is the normalised set of their "drinks"
      list. */
  lemma {:induction false} DrinkMapValue(users: seq<(String, Prefs)>, i: nat, j: nat)
    requires forall a, b :: 0 <= a < b < |users| ==> Strip(users[a].0) != Strip(users[b].0)
    requires i < |users| && DistinctKeys(users[i].1)
    requires j < |users[i].1| && users[i].1[j].0 == DrinksItem
    ensures Strip(users[i].0) in Keys(DrinkMap(users))
    ensures Get(DrinkMap(users), Strip(users[i].0)) == NormSet(users[i].1[j].1)
  {
    var q, last := users[..|users| - 1], users[|users| - 1];
    if i == |q| {
      DrinksOfValue(DrinkMap(q), last.0, last.1, j);
    } else {
      assert q[i] == users[i];
      DrinkMapValue(q, i, j);
      DrinksOfKeys(DrinkMap(q), last.0, last.1);
    }
  }

  /** Every name the preferences hold in either map has a first token. */
  predicate WellNamed(p: Preferences) {
    (forall e, u :: e in p.badFoodUsers && u in e.1 ==> HasToken(u))
    && (forall d :: d in p.userDrinks ==> HasToken(d.0))
  }

  /** When every user's name has a first token, so does every name the
      preferences hold: stripping keeps the non-blank characters. */
  lemma PreferencesWellNamed(users: seq<(String, Prefs)>)
    requires forall u :: u in users ==> HasToken(u.0)
    ensures WellNamed(PreferencesOf(users))
  {
    var p := PreferencesOf(users);
    forall e, u | e in p.badFoodUsers && u in e.1 ensures HasToken(u) {
      var i :| 0 <= i < |p.badFoodUsers| && p.badFoodUsers[i] == e;
      BadFoodUsers(users, e.0, u);
      GetAt(p.badFoodUsers, i);
      var w :| w in users && Strip(w.0) == u && DislikesIn(w.1, e.0);
      HasTokenStrip(w.0);
    }
    DrinkMapKeys(users);
    forall d | d in p.userDrinks ensures HasToken(d.0) {
      var i :| 0 <= i < |p.userDrinks| && p.userDrinks[i] == d;
      assert Keys(p.userDrinks)[i] == d.0;
      assert Drinker(users, d.0);
      var w :| w in users && Strip(w.0) == d.0 && HasDrinks(w.1);
      HasTokenStrip(w.0);
    }
  }

  /** One more item of a user's record. */
  lemma ItemStep(user: String, pref: Prefs, m: seq<(String, set<String>)>, j: nat)
    requires j < |pref|
    ensures FoodRecordsOf(user, pref[..j + 1])
            == FoodRecordsOf(user, pref[..j]) + (if pref[j].0 == WontEat then [FoodRecord(user, pref[j].1)] else [])
    ensures DrinksOf(m, user, pref[..j + 1])
            == if pref[j].0 != WontEat && pref[j].0 == DrinksItem
               then Put(DrinksOf(m, user, pref[..j]), Strip(user), NormSet(pref[j].1))
               else DrinksOf(m, user, pref[..j])
  {
    TakeSnoc(pref, j);
  }

  /** One more user of the table. */
  lemma UserStep(users: seq<(String, Prefs)>, i: nat)
    requires i < |users|
    ensures FoodRecords(users[..i + 1]) == FoodRecords(users[..i]) + FoodRecordsOf(users[i].0, users[i].1)
    ensures DrinkMap(users[..i + 1]) == DrinksOf(DrinkMap(users[..i]), users[i].0, users[i].1)
  {
    TakeSnoc(users, i);
  }

  /** _user_preferences, as the source runs it: for each user, for each
      item, a "wont_eat" list adds a food record and a "drinks" list sets the
      user's drinks; the food records are then merged as sets. */
  method UserPreferences(users: seq<(String, Prefs)>) returns (p: Preferences)
    ensures p == PreferencesOf(users)
  {
    var foodUserMappings: seq<seq<(String, String)>> := [];
    var userDrinksMappings: seq<(String, set<String>)> := [];
    for i := 0 to |users|
      invariant foodUserMappings == FoodRecords(users[..i])
      invariant userDrinksMappings == DrinkMap(users[..i])
    {
      var (user, pref) := users[i];
      ghost var before := userDrinksMappings;
      for j := 0 to |pref|
        invariant foodUserMappings == FoodRecords(users[..i]) + FoodRecordsOf(user, pref[..j])
        invariant userDrinksMappings == DrinksOf(before, user, pref[..j])
      {
        var (item, val) := pref[j];
        ItemStep(user, pref, before, j);
        if item == WontEat {
          foodUserMappings := foodUserMappings + [FoodRecord(user, val)];
        } else if item == DrinksItem {
          userDrinksMappings := Put(userDrinksMappings, Strip(user), NormSet(val));
        }
      }
      UserStep(users, i);
      assert pref[..|pref|] == pref;
    }
    assert users[..|users|] == users;
    var merged := MergeAsSets(foodUserMappings);
    p := Preferences(merged, userDrinksMappings);
  }
}
