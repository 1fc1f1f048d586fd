/** `GoToWhere._generate_report`: pick the participants out of the users
    table, gather their preferences, and recommend venues. The users and
    venues tables arrive as already fetched and keyed by name. */
module WhereToGo {
  import opened Text
  import opened Seqs
  import opened Dicts
  import opened Subset
  import opened Preferences
  import opened Recommendation

  /** The report for the participants listed: the list is swept of names
      no user has (the ghost `warned` lists them), the users still named
      give their preferences, and the recommendation is built from those,
      with the users of each disliked food met in the order `visits` says.
      Every user the participants list asks for must have a name holding a
      word, since a reason is built from the first word of a name. */
  method GenerateReport(participantsList: NameList, users: seq<(String, Prefs)>, venues: Venues)
    returns (report: Report, ghost warned: seq<String>, ghost visits: Visits)
    requires forall u :: u in users && Norm(u.0) in NormAll(participantsList.names) ==> HasToken(u.0)
    modifies participantsList
    ensures Swept(participantsList.names, warned) == Sweep(old(participantsList.names), KeyNorms(users), 0)
    ensures var p := PreferencesOf(Select(users, participantsList.names));
            WellNamed(p) && IsOrder(p.badFoodUsers, visits)
            && report == RecommendationOf(venues, p, visits)
  {
    ghost var given := participantsList.names;
    var participants;
    participants, warned := DictSubset(participantsList, users);
    SelectSpec(users, participantsList.names);
    forall u | u in participants ensures HasToken(u.0) {
      var n :| n in participantsList.names && Norm(n) == Norm(u.0);
      SweepRemainingGiven(given, KeyNorms(users), n);
      var k :| 0 <= k < |given| && given[k] == n;
      assert NormAll(given)[k] == Norm(u.0);
    }
    PreferencesWellNamed(participants);
    var p := UserPreferences(participants);
    report, visits := Recommend(venues, p);
  }

  /** Some set of bad_food_user_mappings flags venue v for a user whose
      first word is t exactly when that user will not eat a food the
      venue fails. */
  lemma EatFlaggedByUsers(users: seq<(String, Prefs)>, venues: Venues, v: String, t: String)
    ensures EatFlagged(PreferencesOf(users), venues, v, t) <==>
            exists f, n :: Dislikes(users, f, n) && HasToken(n) && FirstToken(n) == t
                           && VenueFails(venues, Eat(f), v)
  {
    var p := PreferencesOf(users);
    if EatFlagged(p, venues, v, t) {
      var e, u :| e in p.badFoodUsers && u in e.1 && HasToken(u) && FirstToken(u) == t && VenueFails(venues, Eat(e.0), v);
      BadFoodEntry(users, e, u);
    }
    if exists f, n :: Dislikes(users, f, n) && HasToken(n) && FirstToken(n) == t && VenueFails(venues, Eat(f), v) {
      var f, n :| Dislikes(users, f, n) && HasToken(n) && FirstToken(n) == t && VenueFails(venues, Eat(f), v);
      var e := DislikeEntry(users, f, n);
    }
  }

  /** A venue is avoided because person t has nothing to eat there exactly
      when some user whose stripped name starts with the word t will not
      eat a food f, and the venue serves nothing or only f. */
  lemma EatReasonForUsers(users: seq<(String, Prefs)>, venues: Venues, visits: Visits, v: String, t: String)
    requires forall u :: u in users ==> HasToken(u.0)
    requires IsOrder(PreferencesOf(users).badFoodUsers, visits)
    ensures var p := PreferencesOf(users);
            WellNamed(p)
            && (Avoided(RecommendationOf(venues, p, visits), v, EatReason(t)) <==>
                exists f, n :: Dislikes(users, f, n) && HasToken(n) && FirstToken(n) == t
                               && VenueFails(venues, Eat(f), v))
  {
    PreferencesWellNamed(users);
    EatReasonIff(venues, PreferencesOf(users), visits, v, t);
    EatFlaggedByUsers(users, venues, v, t);
  }

  /** A venue that serves no food at all is avoided, and so not to be
      visited, as soon as one participant will not eat something. */
  lemma FoodlessVenueAvoidedForUsers(users: seq<(String, Prefs)>, venues: Venues, visits: Visits,
                                     venue: (String, Menu), f: String, n: String)
    requires forall u :: u in users ==> HasToken(u.0)
    requires IsOrder(PreferencesOf(users).badFoodUsers, visits)
    requires venue in venues && NormSet(venue.1.food) == {}
    requires Dislikes(users, f, n)
    ensures var p := PreferencesOf(users);
            WellNamed(p)
            && venue.0 in AvoidedNames(RecommendationOf(venues, p, visits))
            && venue.0 !in RecommendationOf(venues, p, visits).placesToVisit
  {
    var p := PreferencesOf(users);
    PreferencesWellNamed(users);
    var e := DislikeEntry(users, f, n);
    FoodlessVenueAvoided(venues, p, visits, venue, e);
  }
}
