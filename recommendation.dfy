/** `GoToWhere._recommendation`: flag every venue where some participant
    has nothing to eat or nothing to drink, merge the flags per venue, and
    report the venues to visit and the venues to avoid with their reasons. */
module Recommendation {
  import opened Text
  import opened Seqs
  import opened Dicts
  import opened Merge
  import opened Preferences

  /** A venue's record: its "food" list and its "drinks" list. */
  datatype Menu = Menu(food: seq<String>, drinks: seq<String>)

  /** `venues_data`: venue name to its record, in table order. */
  type Venues = seq<(String, Menu)>

  /** One entry of "places_to_avoid". */
  datatype Avoidance = Avoidance(name: String, reason: seq<String>)

  /** The recommendation: "places_to_visit" and "places_to_avoid". */
  datatype Report = Report(placesToVisit: seq<String>, placesToAvoid: seq<Avoidance>)

  const ReasonHead: String := "There is nothing for "
  const EatTail: String := " to eat."
  const DrinkTail: String := " to drink."

  function EatReason(name: String): (r: String)
    ensures |r| == |ReasonHead| + |name| + |EatTail|
  {
    ReasonHead + name + EatTail
  }

  function DrinkReason(name: String): (r: String)
    ensures |r| == |ReasonHead| + |name| + |DrinkTail|
  {
    ReasonHead + name + DrinkTail
  }

  /** A reason about eating ends with " to eat.", one about drinking with
      " to drink.". */
  predicate IsEatReason(r: String) {
    |EatTail| <= |r| && r[|r| - |EatTail|..] == EatTail
  }

  predicate IsDrinkReason(r: String) {
    |DrinkTail| <= |r| && r[|r| - |DrinkTail|..] == DrinkTail
  }

  /** The two kinds of reason are told apart by their endings, and each
      names exactly one person. */
  lemma ReasonsApart(a: String, b: String)
    ensures IsEatReason(EatReason(a)) && !IsDrinkReason(EatReason(a))
    ensures IsDrinkReason(DrinkReason(a)) && !IsEatReason(DrinkReason(a))
    ensures EatReason(a) == EatReason(b) ==> a == b
    ensures DrinkReason(a) == DrinkReason(b) ==> a == b
    ensures EatReason(a) != DrinkReason(b)
  {
    var e, d := EatReason(a), DrinkReason(a);
    assert e[|e| - |EatTail|..] == EatTail;
    assert e[|e| - 2] == 't';
    assert d[|d| - |DrinkTail|..] == DrinkTail;
    assert d[|d| - 2] == 'k';
    if |e| >= |DrinkTail| {
      assert e[|e| - |DrinkTail|..][|DrinkTail| - 2] == e[|e| - 2];
    }
    assert d[|d| - |EatTail|..][|EatTail| - 2] == d[|d| - 2];
    var d' := DrinkReason(b);
    assert d'[|d'| - |DrinkTail|..] == DrinkTail;
    if EatReason(a) == EatReason(b) {
      assert e[|ReasonHead|..|ReasonHead| + |a|] == a;
      assert EatReason(b)[|ReasonHead|..|ReasonHead| + |b|] == b;
    }
    if DrinkReason(a) == DrinkReason(b) {
      assert d[|ReasonHead|..|ReasonHead| + |a|] == a;
      assert DrinkReason(b)[|ReasonHead|..|ReasonHead| + |b|] == b;
    }
  }

  /** A test applied to one venue on behalf of one user: a food the user
      will not eat, or the set of drinks the user accepts. */
  datatype Check = Eat(badFood: String) | Drink(drinks: set<String>)

  /** The venue fails the test: its normalised foods are none at all or
      exactly the one food the user will not eat; or it offers none of the
      user's drinks. */
  predicate Fails(c: Check, m: Menu) {
    match c
    case Eat(badFood) => NormSet(m.food) == {} || NormSet(m.food) == {badFood}
    case Drink(drinks) => drinks * NormSet(m.drinks) == {}
  }

  /** The flags one test raises over the venues, in table order: one
      `{venue: reason}` per failing venue. */
  function Flags(venues: Venues, c: Check, reason: String): seq<(String, String)> {
    if venues == [] then []
    else
      var last := venues[|venues| - 1];
      Flags(venues[..|venues| - 1], c, reason) + (if Fails(c, last.1) then [(last.0, reason)] else [])
  }

  /** Some venue named v fails the test. */
  predicate VenueFails(venues: Venues, c: Check, v: String) {
    exists e :: e in venues && e.0 == v && Fails(c, e.1)
  }

  /** Every name has a first token. */
  predicate Named(us: seq<String>) {
    forall u :: u in us ==> HasToken(u)
  }

  /** The food pass for one bad food: each of its users, in the order given,
      over all venues. */
  function FoodFlags(badFood: String, us: seq<String>, venues: Venues): seq<(String, String)>
    requires Named(us)
  {
    if us == [] then []
    else
      var u := us[|us| - 1];
      FoodFlags(badFood, us[..|us| - 1], venues) + Flags(venues, Eat(badFood), EatReason(FirstToken(u)))
  }

  /** The bad foods in map order, each with its users in the order the pass
      visits them. */
  type Visits = seq<(String, seq<String>)>

  predicate VisitsNamed(visits: Visits) {
    forall x :: x in visits ==> Named(x.1)
  }

  /** The whole food pass. */
  function EatFlags(visits: Visits, venues: Venues): seq<(String, String)>
    requires VisitsNamed(visits)
  {
    if visits == [] then []
    else
      var last := visits[|visits| - 1];
      assert last in visits;
      EatFlags(visits[..|visits| - 1], venues) + FoodFlags(last.0, last.1, venues)
  }

  /** The drink pass: the users in map order, each over all venues. */
  function DrinkFlags(udm: seq<(String, set<String>)>, venues: Venues): seq<(String, String)>
    requires forall d :: d in udm ==> HasToken(d.0)
  {
    if udm == [] then []
    else
      var last := udm[|udm| - 1];
      assert last in udm;
      DrinkFlags(udm[..|udm| - 1], venues) + Flags(venues, Drink(last.1), DrinkReason(FirstToken(last.0)))
  }

  /** us lists the set s, each member once. */
  ghost predicate Enumerates(us: seq<String>, s: set<String>) {
    Distinct(us) && forall u :: u in us <==> u in s
  }

  /** visits goes through the bad foods of bfu in order, and through the
      users of each. */
  ghost predicate IsOrder(bfu: seq<(String, set<String>)>, visits: Visits) {
    |visits| == |bfu| && forall i :: 0 <= i < |bfu| ==> visits[i].0 == bfu[i].0 && Enumerates(visits[i].1, bfu[i].1)
  }

  /** Visiting well-named users meets only users with a first token. */
  lemma OrderNamed(p: Preferences, visits: Visits)
    requires WellNamed(p) && IsOrder(p.badFoodUsers, visits)
    ensures VisitsNamed(visits)
  {
    forall x, u | x in visits && u in x.1 ensures HasToken(u) {
      var i :| 0 <= i < |visits| && visits[i] == x;
      assert p.badFoodUsers[i] in p.badFoodUsers;
    }
  }

  /** Every flag the two passes raise, food pass first. */
  function AllFlags(venues: Venues, p: Preferences, visits: Visits): seq<(String, String)>
    requires WellNamed(p) && IsOrder(p.badFoodUsers, visits)
  {
    OrderNamed(p, visits);
    EatFlags(visits, venues) + DrinkFlags(p.userDrinks, venues)
  }

  /** `v not in avoid_dict.keys()`. */
  function NotIn(ks: seq<String>): String -> bool {
    v => v !in ks
  }

  /** The report built from the merged flags: venues without a flag in table
      order, then one entry per flagged venue. */
  function ReportOf(venues: Venues, avoid: seq<(String, seq<String>)>): Report {
    Report(Filter(Keys(venues), NotIn(Keys(avoid))),
           seq(|avoid|, i requires 0 <= i < |avoid| => Avoidance(avoid[i].0, avoid[i].1)))
  }

  /** What _recommendation returns when the users of each bad food are
      visited as `visits` says. */
  function RecommendationOf(venues: Venues, p: Preferences, visits: Visits): Report
    requires WellNamed(p) && IsOrder(p.badFoodUsers, visits)
  {
    ReportOf(venues, MergedLists(AllFlags(venues, p, visits)))
  }

  /** A flag names a venue that fails the test, with the test's reason;
      every such venue is flagged. */
  lemma {:induction false} FlagsMember(venues: Venues, c: Check, reason: String, v: String, r: String)
    ensures (v, r) in Flags(venues, c, reason) <==> r == reason && VenueFails(venues, c, v)
  {
    if venues != [] {
      var front, last := venues[..|venues| - 1], venues[|venues| - 1];
      FlagsMember(front, c, reason, v, r);
      SplitLast(venues);
    }
  }

  /** r is the reason about eating of one of us. */
  ghost predicate EatReasonOf(us: seq<String>, r: String)
    requires Named(us)
  {
    exists u :: u in us && r == EatReason(FirstToken(u))
  }

  /** The food pass for one bad food flags v with r exactly when v serves
      nothing or only that food and r names one of the users. */
  lemma {:induction false} FoodFlagsMember(badFood: String, us: seq<String>, venues: Venues, v: String, r: String)
    requires Named(us)
    ensures (v, r) in FoodFlags(badFood, us, venues)
            <==> EatReasonOf(us, r) && VenueFails(venues, Eat(badFood), v)
  {
    if us != [] {
      var front, u := us[..|us| - 1], us[|us| - 1];
      SplitLast(us);
      FoodFlagsMember(badFood, front, venues, v, r);
      FlagsMember(venues, Eat(badFood), EatReason(FirstToken(u)), v, r);
    }
  }

  /** Some user of some bad food has nothing to eat at v, and r is the
      reason given for that user. */
  ghost predicate EatenBy(visits: Visits, venues: Venues, v: String, r: String)
    requires VisitsNamed(visits)
  {
    exists x :: x in visits && EatReasonOf(x.1, r) && VenueFails(venues, Eat(x.0), v)
  }

  lemma {:induction false} EatFlagsMember(visits: Visits, venues: Venues, v: String, r: String)
    requires VisitsNamed(visits)
    ensures (v, r) in EatFlags(visits, venues) <==> EatenBy(visits, venues, v, r)
  {
    if visits != [] {
      var front, last := visits[..|visits| - 1], visits[|visits| - 1];
      SplitLast(visits);
      EatFlagsMember(front, venues, v, r);
      FoodFlagsMember(last.0, last.1, venues, v, r);
    }
  }

  lemma {:induction false} DrinkFlagsMember(udm: seq<(String, set<String>)>, venues: Venues, v: String, r: String)
    requires forall d :: d in udm ==> HasToken(d.0)
    ensures (v, r) in DrinkFlags(udm, venues)
            <==> exists d :: d in udm && r == DrinkReason(FirstToken(d.0)) && VenueFails(venues, Drink(d.1), v)
  {
    if udm != [] {
      var front, last := udm[..|udm| - 1], udm[|udm| - 1];
      SplitLast(udm);
      DrinkFlagsMember(front, venues, v, r);
      FlagsMember(venues, Drink(last.1), DrinkReason(FirstToken(last.0)), v, r);
    }
  }

  lemma FlagsStep(venues: Venues, c: Check, reason: String, k: nat)
    requires k < |venues|
    ensures Flags(venues[..k + 1], c, reason)
            == Flags(venues[..k], c, reason) + (if Fails(c, venues[k].1) then [(venues[k].0, reason)] else [])
  {
    TakeSnoc(venues, k);
  }

  lemma FoodFlagsStep(badFood: String, us: seq<String>, u: String, venues: Venues)
    requires Named(us + [u])
    ensures Named(us)
    ensures FoodFlags(badFood, us + [u], venues) == FoodFlags(badFood, us, venues) + Flags(venues, Eat(badFood), EatReason(FirstToken(u)))
  {
    assert (us + [u])[..|us|] == us;
  }

  lemma EatFlagsStep(visits: Visits, x: (String, seq<String>), venues: Venues)
    requires VisitsNamed(visits + [x])
    ensures VisitsNamed(visits) && Named(x.1)
    ensures EatFlags(visits + [x], venues) == EatFlags(visits, venues) + FoodFlags(x.0, x.1, venues)
  {
    assert (visits + [x])[..|visits|] == visits;
    assert x in visits + [x];
  }

  lemma DrinkFlagsStep(udm: seq<(String, set<String>)>, venues: Venues, i: nat)
    requires i < |udm| && forall d :: d in udm ==> HasToken(d.0)
    ensures forall d :: d in udm[..i] ==> HasToken(d.0)
    ensures DrinkFlags(udm[..i + 1], venues)
            == DrinkFlags(udm[..i], venues) + Flags(venues, Drink(udm[i].1), DrinkReason(FirstToken(udm[i].0)))
  {
    TakeSnoc(udm, i);
    assert udm[..i + 1][i] in udm[..i + 1];
  }

  /** The innermost loop of either pass: walk the venues in table order
      and flag each one that fails the user's test. The reason is the same
      for every venue of one user. */
  method FlagVenues(venues: Venues, c: Check, reason: String, flagged: seq<(String, String)>) returns (placesToAvoid: seq<(String, String)>)
    ensures placesToAvoid == flagged + Flags(venues, c, reason)
  {
    placesToAvoid := flagged;
    for k := 0 to |venues|
      invariant placesToAvoid == flagged + Flags(venues[..k], c, reason)
    {
      var (venue, menu) := venues[k];
      FlagsStep(venues, c, reason, k);
      AppendAssoc(flagged, Flags(venues[..k], c, reason), if Fails(c, menu) then [(venue, reason)] else []);
      if Fails(c, menu) {
        placesToAvoid := placesToAvoid + [(venue, reason)];
      }
    }
    assert venues[..|venues|] == venues;
  }

  /** The middle loop of the food pass: the users of one bad food, a set
      that Python iterates in an order of its own. The method picks any
      order and reports it in `us`. */
  method FlagUsers(badFood: String, users: set<String>, venues: Venues, flagged: seq<(String, String)>)
    returns (placesToAvoid: seq<(String, String)>, ghost us: seq<String>)
    requires forall u :: u in users ==> HasToken(u)
    ensures Enumerates(us, users) && Named(us)
    ensures placesToAvoid == flagged + FoodFlags(badFood, us, venues)
  {
    placesToAvoid := flagged;
    us := [];
    var rest := users;
    while rest != {}
      invariant rest <= users && Distinct(us)
      invariant forall u :: u in us <==> u in users && u !in rest
      invariant Named(us)
      invariant placesToAvoid == flagged + FoodFlags(badFood, us, venues)
      decreases rest
    {
      var u :| u in rest;
      placesToAvoid := FlagVenues(venues, Eat(badFood), EatReason(FirstToken(u)), placesToAvoid);
      FoodFlagsStep(badFood, us, u, venues);
      AppendAssoc(flagged, FoodFlags(badFood, us, venues), Flags(venues, Eat(badFood), EatReason(FirstToken(u))));
      rest := rest - {u};
      us := us + [u];
    }
  }

  /** The food pass of _recommendation (its first loop nest): for each bad
      food, for each of its users, the venues that serve nothing or only
      that food are flagged; `visits` records the order each set of users
      was visited in. Each one-entry dict `{venue: reason}` the source
      appends is kept as its one entry. */
  method EatPass(bfu: seq<(String, set<String>)>, venues: Venues) returns (placesToAvoid: seq<(String, String)>, ghost visits: Visits)
    requires forall e, u :: e in bfu && u in e.1 ==> HasToken(u)
    ensures IsOrder(bfu, visits) && VisitsNamed(visits)
    ensures placesToAvoid == EatFlags(visits, venues)
  {
    placesToAvoid := [];
    visits := [];
    for i := 0 to |bfu|
      invariant |visits| == i
      invariant forall k :: 0 <= k < i ==> visits[k].0 == bfu[k].0 && Enumerates(visits[k].1, bfu[k].1)
      invariant VisitsNamed(visits)
      invariant placesToAvoid == EatFlags(visits, venues)
    {
      var (badFood, users) := bfu[i];
      assert bfu[i] in bfu;
      ghost var us;
      placesToAvoid, us := FlagUsers(badFood, users, venues, placesToAvoid);
      EatFlagsStep(visits, (badFood, us), venues);
      visits := visits + [(badFood, us)];
    }
  }

  /** The drink pass of _recommendation (its second loop nest): for each
      user, the venues that offer none of the user's drinks are flagged,
      after the flags already raised. */
  method DrinkPass(udm: seq<(String, set<String>)>, venues: Venues, flagged: seq<(String, String)>) returns (placesToAvoid: seq<(String, String)>)
    requires forall d :: d in udm ==> HasToken(d.0)
    ensures placesToAvoid == flagged + DrinkFlags(udm, venues)
  {
    placesToAvoid := flagged;
    for i := 0 to |udm|
      invariant forall d :: d in udm[..i] ==> HasToken(d.0)
      invariant placesToAvoid == flagged + DrinkFlags(udm[..i], venues)
    {
      var (user, drinks) := udm[i];
      assert udm[i] in udm;
      placesToAvoid := FlagVenues(venues, Drink(drinks), DrinkReason(FirstToken(user)), placesToAvoid);
      DrinkFlagsStep(udm, venues, i);
      AppendAssoc(flagged, DrinkFlags(udm[..i], venues), Flags(venues, Drink(drinks), DrinkReason(FirstToken(user))));
    }
    assert udm[..|udm|] == udm;
  }

  /** _recommendation: both passes, the flags merged per venue with the
      list policy of _merge_dicts, and the report built from the result. */
  method Recommend(venues: Venues, p: Preferences) returns (report: Report, ghost visits: Visits)
    requires WellNamed(p)
    ensures IsOrder(p.badFoodUsers, visits)
    ensures report == RecommendationOf(venues, p, visits)
    ensures IsSubsequence(report.placesToVisit, Keys(venues))
    ensures forall v :: v in report.placesToVisit <==> v in Keys(venues) && v !in AvoidedNames(report)
    ensures Distinct(AvoidedNames(report))
    ensures forall a :: a in report.placesToAvoid ==> a.reason != [] && Distinct(a.reason)
  {
    var placesToAvoid;
    placesToAvoid, visits := EatPass(p.badFoodUsers, venues);
    placesToAvoid := DrinkPass(p.userDrinks, venues, placesToAvoid);
    FlattenSingletons(placesToAvoid);
    var avoidDict := MergeAsLists(Singletons(placesToAvoid));
    report := ReportOf(venues, avoidDict);
    Partition(venues, p, visits);
    ReasonLists(venues, p, visits);
  }

  /** Some user with first token t will not eat some food, and venue v
      serves nothing, or nothing but that food. */
  ghost predicate EatFlagged(p: Preferences, venues: Venues, v: String, t: String) {
    exists e, u :: e in p.badFoodUsers && u in e.1 && HasToken(u) && FirstToken(u) == t
                   && VenueFails(venues, Eat(e.0), v)
  }

  /** Some user with first token t has drinks, none of which venue v
      offers. */
  ghost predicate DrinkFlagged(p: Preferences, venues: Venues, v: String, t: String) {
    exists d :: d in p.userDrinks && HasToken(d.0) && FirstToken(d.0) == t && VenueFails(venues, Drink(d.1), v)
  }

  /** The report lists venue v as a place to avoid, with reason r. */
  ghost predicate Avoided(rep: Report, v: String, r: String) {
    exists a :: a in rep.placesToAvoid && a.name == v && r in a.reason
  }

  /** The names of the places to avoid, in report order. */
  function AvoidedNames(rep: Report): (ns: seq<String>)
    ensures |ns| == |rep.placesToAvoid|
  {
    seq(|rep.placesToAvoid|, i requires 0 <= i < |rep.placesToAvoid| => rep.placesToAvoid[i].name)
  }

  /** Each visited user belongs to the bad food's set, and each member of
      the set is visited. */
  lemma VisitsCover(bfu: seq<(String, set<String>)>, visits: Visits, badFood: String, u: String)
    requires IsOrder(bfu, visits)
    ensures (exists x :: x in visits && x.0 == badFood && u in x.1)
            <==> (exists e :: e in bfu && e.0 == badFood && u in e.1)
  {
    if exists x :: x in visits && x.0 == badFood && u in x.1 {
      var x :| x in visits && x.0 == badFood && u in x.1;
      var i :| 0 <= i < |visits| && visits[i] == x;
      assert bfu[i] in bfu;
    }
    if exists e :: e in bfu && e.0 == badFood && u in e.1 {
      var e :| e in bfu && e.0 == badFood && u in e.1;
      var i :| 0 <= i < |bfu| && bfu[i] == e;
      assert visits[i] in visits;
    }
  }

  /** Whatever order the user sets are visited in, a visited user has
      nothing to eat at v with reason r exactly when r is the eating reason
      of a user who will not eat something that v serves alone, or v serves
      nothing. */
  lemma EatenByIff(venues: Venues, p: Preferences, visits: Visits, v: String, r: String)
    requires WellNamed(p) && IsOrder(p.badFoodUsers, visits) && VisitsNamed(visits)
    ensures EatenBy(visits, venues, v, r) <==> exists t :: r == EatReason(t) && EatFlagged(p, venues, v, t)
  {
    var bfu := p.badFoodUsers;
    if EatenBy(visits, venues, v, r) {
      var x :| x in visits && EatReasonOf(x.1, r) && VenueFails(venues, Eat(x.0), v);
      var u :| u in x.1 && r == EatReason(FirstToken(u));
      VisitsCover(bfu, visits, x.0, u);
      var e :| e in bfu && e.0 == x.0 && u in e.1;
      assert EatFlagged(p, venues, v, FirstToken(u));
    }
    if exists t :: r == EatReason(t) && EatFlagged(p, venues, v, t) {
      var t :| r == EatReason(t) && EatFlagged(p, venues, v, t);
      var e, u :| e in bfu && u in e.1 && HasToken(u) && FirstToken(u) == t && VenueFails(venues, Eat(e.0), v);
      VisitsCover(bfu, visits, e.0, u);
      var x :| x in visits && x.0 == e.0 && u in x.1;
      assert EatReasonOf(x.1, r);
    }
  }

  /** The flags of both passes: v is flagged for eating exactly when
      EatFlagged holds of some first token, for drinking when DrinkFlagged
      does. */
  lemma AllFlagsMember(venues: Venues, p: Preferences, visits: Visits, v: String, r: String)
    requires WellNamed(p) && IsOrder(p.badFoodUsers, visits)
    ensures (v, r) in AllFlags(venues, p, visits)
            <==> (exists t :: r == EatReason(t) && EatFlagged(p, venues, v, t))
                 || (exists t :: r == DrinkReason(t) && DrinkFlagged(p, venues, v, t))
  {
    OrderNamed(p, visits);
    EatFlagsMember(visits, venues, v, r);
    EatenByIff(venues, p, visits, v, r);
    DrinkFlagsMember(p.userDrinks, venues, v, r);
    if exists d :: d in p.userDrinks && r == DrinkReason(FirstToken(d.0)) && VenueFails(venues, Drink(d.1), v) {
      var d :| d in p.userDrinks && r == DrinkReason(FirstToken(d.0)) && VenueFails(venues, Drink(d.1), v);
      assert DrinkFlagged(p, venues, v, FirstToken(d.0));
    }
  }

  /** A flagged venue is one of the venues. */
  lemma FlaggedIsVenue(venues: Venues, p: Preferences, visits: Visits, v: String, r: String)
    requires WellNamed(p) && IsOrder(p.badFoodUsers, visits)
    requires (v, r) in AllFlags(venues, p, visits)
    ensures v in Keys(venues)
  {
    AllFlagsMember(venues, p, visits, v, r);
    var c: Check;
    if exists t :: r == EatReason(t) && EatFlagged(p, venues, v, t) {
      var t :| r == EatReason(t) && EatFlagged(p, venues, v, t);
      var e, u :| e in p.badFoodUsers && u in e.1 && HasToken(u) && FirstToken(u) == t && VenueFails(venues, Eat(e.0), v);
      c := Eat(e.0);
    } else {
      var t :| r == DrinkReason(t) && DrinkFlagged(p, venues, v, t);
      var d :| d in p.userDrinks && HasToken(d.0) && FirstToken(d.0) == t && VenueFails(venues, Drink(d.1), v);
      c := Drink(d.1);
    }
    var e :| e in venues && e.0 == v && Fails(c, e.1);
    KeyOfMember(venues, e);
  }

  /** A report lists v to avoid with reason r exactly when the merged
      flags give v a list holding r. */
  lemma ReportAvoided(venues: Venues, m: seq<(String, seq<String>)>, v: String, r: String)
    ensures Avoided(ReportOf(venues, m), v, r) <==> exists t :: 0 <= t < |m| && m[t].0 == v && r in m[t].1
  {
    var avoid := ReportOf(venues, m).placesToAvoid;
    if Avoided(ReportOf(venues, m), v, r) {
      var a :| a in avoid && a.name == v && r in a.reason;
      var t :| 0 <= t < |avoid| && avoid[t] == a;
      assert m[t].0 == v && r in m[t].1;
    }
    if exists t :: 0 <= t < |m| && m[t].0 == v && r in m[t].1 {
      var t :| 0 <= t < |m| && m[t].0 == v && r in m[t].1;
      assert avoid[t] == Avoidance(v, m[t].1) && avoid[t] in avoid;
    }
  }

  /** A venue is avoided for reason r exactly when some pass flagged it
      with r: merging loses no flag and invents none. */
  lemma AvoidedIff(venues: Venues, p: Preferences, visits: Visits, v: String, r: String)
    requires WellNamed(p) && IsOrder(p.badFoodUsers, visits)
    ensures Avoided(RecommendationOf(venues, p, visits), v, r) <==> (v, r) in AllFlags(venues, p, visits)
  {
    var flags := AllFlags(venues, p, visits);
    assert RecommendationOf(venues, p, visits) == ReportOf(venues, MergedLists(flags));
    ReportAvoided(venues, MergedLists(flags), v, r);
    MergedListsMember(flags, v, r);
  }

  /** A venue is avoided because person t has nothing to eat there exactly
      when a user whose name starts with t will not eat some food and the
      venue serves nothing, or nothing but that food. */
  lemma EatReasonIff(venues: Venues, p: Preferences, visits: Visits, v: String, t: String)
    requires WellNamed(p) && IsOrder(p.badFoodUsers, visits)
    ensures Avoided(RecommendationOf(venues, p, visits), v, EatReason(t)) <==> EatFlagged(p, venues, v, t)
  {
    AvoidedIff(venues, p, visits, v, EatReason(t));
    AllFlagsMember(venues, p, visits, v, EatReason(t));
    forall t' ensures EatReason(t) == EatReason(t') ==> t == t' {
      ReasonsApart(t, t');
    }
    forall t' ensures EatReason(t) != DrinkReason(t') {
      ReasonsApart(t, t');
    }
  }

  /** A venue is avoided because person t has nothing to drink there
      exactly when a user whose name starts with t has drinks, none of
      which the venue offers. */
  lemma DrinkReasonIff(venues: Venues, p: Preferences, visits: Visits, v: String, t: String)
    requires WellNamed(p) && IsOrder(p.badFoodUsers, visits)
    ensures Avoided(RecommendationOf(venues, p, visits), v, DrinkReason(t)) <==> DrinkFlagged(p, venues, v, t)
  {
    AvoidedIff(venues, p, visits, v, DrinkReason(t));
    AllFlagsMember(venues, p, visits, v, DrinkReason(t));
    forall t' ensures DrinkReason(t) == DrinkReason(t') ==> t == t' {
      ReasonsApart(t, t');
    }
    forall t' ensures EatReason(t') != DrinkReason(t) {
      ReasonsApart(t', t);
    }
  }

  /** Every venue is either to visit or to avoid, never both; the venues
      to visit keep their table order; each venue to avoid is listed once,
      in the order venues were first flagged. */
  lemma Partition(venues: Venues, p: Preferences, visits: Visits)
    requires WellNamed(p) && IsOrder(p.badFoodUsers, visits)
    ensures var rep := RecommendationOf(venues, p, visits);
            IsSubsequence(rep.placesToVisit, Keys(venues))
            && (forall v :: v in rep.placesToVisit <==> v in Keys(venues) && v !in AvoidedNames(rep))
            && (forall v :: v in AvoidedNames(rep) ==> v in Keys(venues))
            && Distinct(AvoidedNames(rep))
            && AvoidedNames(rep) == Dedup(Keys(AllFlags(venues, p, visits)))
  {
    var flags := AllFlags(venues, p, visits);
    var m := MergedLists(flags);
    var rep := RecommendationOf(venues, p, visits);
    assert rep == ReportOf(venues, m);
    MergedListsKeys(flags);
    assert AvoidedNames(rep) == Keys(m);
    FilterSpec(Keys(venues), NotIn(Keys(m)));
    DedupMembers(Keys(flags));
    forall v | v in Keys(m) ensures v in Keys(venues) {
      var i :| 0 <= i < |flags| && Keys(flags)[i] == v;
      assert flags[i] == (v, flags[i].1);
      FlaggedIsVenue(venues, p, visits, v, flags[i].1);
    }
  }

  /** The values the food pass gives one venue are all reasons about
      eating. */
  lemma EatValues(visits: Visits, venues: Venues, v: String)
    requires VisitsNamed(visits)
    ensures forall x :: x in ValueList(EatFlags(visits, venues), v) ==> IsEatReason(x) && !IsDrinkReason(x)
  {
    var e := EatFlags(visits, venues);
    forall x | x in ValueList(e, v) ensures IsEatReason(x) && !IsDrinkReason(x) {
      ValueListMember(e, v, x);
      EatFlagsMember(visits, venues, v, x);
      var y :| y in visits && EatReasonOf(y.1, x) && VenueFails(venues, Eat(y.0), v);
      var u :| u in y.1 && x == EatReason(FirstToken(u));
      ReasonsApart(FirstToken(u), FirstToken(u));
    }
  }

  /** The values the drink pass gives one venue are all reasons about
      drinking. */
  lemma DrinkValues(udm: seq<(String, set<String>)>, venues: Venues, v: String)
    requires forall d :: d in udm ==> HasToken(d.0)
    ensures forall x :: x in ValueList(DrinkFlags(udm, venues), v) ==> IsDrinkReason(x) && !IsEatReason(x)
  {
    var dr := DrinkFlags(udm, venues);
    forall x | x in ValueList(dr, v) ensures IsDrinkReason(x) && !IsEatReason(x) {
      ValueListMember(dr, v, x);
      DrinkFlagsMember(udm, venues, v, x);
      var d :| d in udm && x == DrinkReason(FirstToken(d.0)) && VenueFails(venues, Drink(d.1), v);
      ReasonsApart(FirstToken(d.0), FirstToken(d.0));
    }
  }

  /** The t-th merged entry of the flags of two passes lists the values of
      the first pass for its venue, then those of the second, each once;
      and it lists at least one. */
  lemma MergedReasons(e: seq<(String, String)>, d: seq<(String, String)>, t: nat)
    requires t < |MergedLists(e + d)|
    ensures var m := MergedLists(e + d);
            m[t].1 == Dedup(ValueList(e, m[t].0) + ValueList(d, m[t].0)) && m[t].1 != []
  {
    var flags := e + d;
    var m := MergedLists(flags);
    var v := m[t].0;
    MergedListsKeys(flags);
    GetAt(m, t);
    MergedListsValues(flags, v);
    ValueListAppend(e, d, v);
    DedupMembers(Keys(flags));
    assert Keys(m)[t] == v;
    var k :| 0 <= k < |flags| && Keys(flags)[k] == v;
    ValueListMember(flags, v, flags[k].1);
    DedupMembers(ValueList(flags, v));
  }

  /** The reasons of the t-th venue to avoid: not empty, no reason twice,
      and every reason about eating before every reason about drinking. */
  lemma ReasonListAt(venues: Venues, p: Preferences, visits: Visits, t: nat)
    requires WellNamed(p) && IsOrder(p.badFoodUsers, visits)
    requires t < |RecommendationOf(venues, p, visits).placesToAvoid|
    ensures var rs := RecommendationOf(venues, p, visits).placesToAvoid[t].reason;
            rs != [] && Distinct(rs)
            && forall i, j :: 0 <= i < j < |rs| ==> !(IsDrinkReason(rs[i]) && IsEatReason(rs[j]))
  {
    OrderNamed(p, visits);
    var flags := AllFlags(venues, p, visits);
    var m := MergedLists(flags);
    assert RecommendationOf(venues, p, visits).placesToAvoid[t] == Avoidance(m[t].0, m[t].1);
    var v := m[t].0;
    var e, d := EatFlags(visits, venues), DrinkFlags(p.userDrinks, venues);
    assert flags == e + d;
    MergedReasons(e, d, t);
    EatValues(visits, venues, v);
    DrinkValues(p.userDrinks, venues, v);
    DedupKinds(ValueList(e, v), ValueList(d, v), IsEatReason, IsDrinkReason);
  }

  /** Every entry of places_to_avoid has a non-empty list of distinct
      reasons, the eating ones first. */
  lemma ReasonLists(venues: Venues, p: Preferences, visits: Visits)
    requires WellNamed(p) && IsOrder(p.badFoodUsers, visits)
    ensures forall a :: a in RecommendationOf(venues, p, visits).placesToAvoid ==>
              a.reason != [] && Distinct(a.reason)
              && forall i, j :: 0 <= i < j < |a.reason| ==> !(IsDrinkReason(a.reason[i]) && IsEatReason(a.reason[j]))
  {
    var avoid := RecommendationOf(venues, p, visits).placesToAvoid;
    forall a | a in avoid
      ensures a.reason != [] && Distinct(a.reason)
              && forall i, j :: 0 <= i < j < |a.reason| ==> !(IsDrinkReason(a.reason[i]) && IsEatReason(a.reason[j]))
    {
      var t :| 0 <= t < |avoid| && avoid[t] == a;
      ReasonListAt(venues, p, visits, t);
    }
  }

  /** A venue that serves no food at all is avoided as soon as one user
      will not eat something. */
  lemma FoodlessVenueAvoided(venues: Venues, p: Preferences, visits: Visits, venue: (String, Menu), dislike: (String, set<String>))
    requires WellNamed(p) && IsOrder(p.badFoodUsers, visits)
    requires venue in venues && NormSet(venue.1.food) == {}
    requires dislike in p.badFoodUsers && dislike.1 != {}
    ensures venue.0 in AvoidedNames(RecommendationOf(venues, p, visits))
    ensures venue.0 !in RecommendationOf(venues, p, visits).placesToVisit
  {
    var rep := RecommendationOf(venues, p, visits);
    var u :| u in dislike.1;
    assert VenueFails(venues, Eat(dislike.0), venue.0);
    assert EatFlagged(p, venues, venue.0, FirstToken(u));
    EatReasonIff(venues, p, visits, venue.0, FirstToken(u));
    var a :| a in rep.placesToAvoid && a.name == venue.0 && EatReason(FirstToken(u)) in a.reason;
    var t :| 0 <= t < |rep.placesToAvoid| && rep.placesToAvoid[t] == a;
    assert AvoidedNames(rep)[t] == venue.0;
    Partition(venues, p, visits);
  }
}
