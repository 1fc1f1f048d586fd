# place_finder: where the team should go, modelled in Dafny

`GoToWhere` (in `app/where_to_go.py`) recommends venues for a team outing.
It takes a list of participant names, a users table and a venues table, and
produces a report with two parts:

- "places_to_visit";
- "places_to_avoid", where each entry has a list of reasons.

A venue is avoided for a participant in two cases:

- The venue serves nothing at all, or nothing but a food the participant
  will not eat: "There is nothing for X to eat.".
- The venue serves none of the drinks the participant accepts: "There is
  nothing for X to drink.".

This project models the core of that file as Dafny code and proves what the
core promises. It has one module per part:

| module | file | models |
|---|---|---|
| `Text` | `text.dfy` | `str.strip()`, ASCII `lower()`, `split()[0]` |
| `Seqs` | `seqs.dfy` | de-duplication, filtering, order-keeping sub-sequences, flattening |
| `Dicts` | `dicts.dfy` | Python dicts as association lists in insertion order (`Put` is `d[k] = v`) |
| `Merge` | `merge.dfy` | `_merge_dicts` with its `set` and its `list` policy |
| `Subset` | `subset.dfy` | `dict_subset` |
| `Preferences` | `preferences.dfy` | `_user_preferences` |
| `Recommendation` | `recommendation.dfy` | `_recommendation` |
| `WhereToGo` | `whereto.dfy` | the pipeline of `_generate_report` |

Each loop in the Python code is a Dafny `method` with a loop. Each method is
proved equal to a recursive specification function: `MergedSets`,
`MergedLists`, `Sweep`/`Select`, `PreferencesOf` and `RecommendationOf`.
Lemmas about those functions state what the code means. The participants
list that `dict_subset` changes in place is an object, `Subset.NameList`.

Python iterates over a set in an order of its own. At line 187 the model
lets the loop pick any member not yet visited (`:|`) and records the order
it used as a ghost value, `visits`. The report is then proved equal to
`RecommendationOf(venues, prefs, visits)`. Every property below holds
whatever that order was.

## Model

| member | source | states |
|---|---|---|
| Text.StripSpec | app/where_to_go.py:169 | `strip()` drops exactly the leading and trailing whitespace: the result is the contiguous middle of the input, and it starts and ends with non-space |
| Text.NormIdempotent | app/where_to_go.py:80 | normalising twice (`strip().lower()`) is normalising once |
| Text.FirstTokenSpec | app/where_to_go.py:204 | `split()[0]` is the first maximal run of non-whitespace after the leading whitespace |
| Text.HasTokenStrip | app/where_to_go.py:169 | a name that holds a word still holds one after `strip()`, so `u.split()[0]` exists for the stored name |
| Merge.MergeAsSets | app/where_to_go.py:47-66 | the loop with `default_type=set` returns the set-merge of all pairs of all dicts, taken in order |
| Merge.MergedSetsSpec | app/where_to_go.py:52-59 | keys appear once, in first-seen order; each key's value is the set of every value paired with it |
| Merge.MergedSetsKeys | app/where_to_go.py:52-59 | the merged keys are the input keys de-duplicated in first-occurrence order, each once |
| Merge.MergedSetsValues | app/where_to_go.py:58-59 | the set for key k is exactly the values paired with k anywhere |
| Merge.MergeAsLists | app/where_to_go.py:47-66 | the loop with `default_type=list` returns the list-merge of all pairs of all dicts, taken in order |
| Merge.MergedListsSpec | app/where_to_go.py:61-64 | keys appear once, in first-seen order; each key's list holds its values without repeats, in first-seen order |
| Merge.MergedListsKeys | app/where_to_go.py:61-64 | the merged keys are the input keys de-duplicated in first-occurrence order |
| Merge.MergedListsValues | app/where_to_go.py:61-64 | the list for key k is `Dedup` of the values paired with k: the `(k, v) not in items` guard drops only repeated pairs |
| Merge.MergedListsMember | app/where_to_go.py:61-64 | v is in some merged entry for k if and only if the pair (k, v) was in the input |
| Subset.NameList.Remove | app/where_to_go.py:85 | `list.remove` deletes the first occurrence of the name and nothing else |
| Subset.RemoveFirstCounts | app/where_to_go.py:85 | removal takes away exactly one copy of the name |
| Subset.DictSubset | app/where_to_go.py:78-92 | the list is left as the sweep leaves it, and the ghost warnings are the names it dropped; the result is the rows whose normalised key matches a normalised remaining name |
| Subset.SweepCounts | app/where_to_go.py:79-85 | the names kept plus the names warned about are, as a multiset, the names given |
| Subset.SweepWarnsUnknown | app/where_to_go.py:80-84 | a name is warned about only if no normalised key equals it |
| Subset.SweepKeepsKnown | app/where_to_go.py:79-85 | every copy of a known name stays in the list |
| Subset.SweepAllKnown | app/where_to_go.py:79-85 | a list of known names is left unchanged, with no warning |
| Subset.SweepSkipsNext | app/where_to_go.py:79-85 | removing during iteration skips the next name: of `["x", "x"]` with no keys, one `"x"` survives |
| Subset.SweepRejectsUnnormalised | app/where_to_go.py:80 | the raw name is compared with normalised keys, so `"Ann"` is dropped even though key `"ann"` exists |
| Subset.SelectSpec | app/where_to_go.py:87-90 | the subset keeps table order; a row is kept exactly when its normalised key equals the normalised form of some remaining name; a table stays a table |
| Subset.SweepRemainingGiven | app/where_to_go.py:79-85 | every name left after the sweep was given |
| Subset.SweepKnownStays | app/where_to_go.py:79-85 | a known name that was given is still in the list after the sweep |
| Subset.NormalisedMatch | app/where_to_go.py:79-89 | with normalised names, a known key's normal form matches a remaining name exactly when it was given |
| Subset.DictSubsetNormalised | app/where_to_go.py:78-92 | with normalised names, the subset is exactly the rows whose normalised key is among the names given |
| Preferences.UserPreferences | app/where_to_go.py:162-176 | the nested loops return `PreferencesOf(users)` |
| Preferences.FoodRecordSpec | app/where_to_go.py:169 | one user's comprehension maps each normalised food, once, to the stripped user name |
| Preferences.FoodRecordsMember | app/where_to_go.py:166-169 | (f, n) is in some food record if and only if the user with stripped name n lists f, normalised, in a "wont_eat" item |
| Preferences.BadFoodUsers | app/where_to_go.py:166-174 | bad_food_user_mappings holds each food once; n is in the set for f if and only if that user will not eat f |
| Preferences.BadFoodEntry | app/where_to_go.py:166-174 | every name in an entry of bad_food_user_mappings belongs to a user who will not eat that entry's food |
| Preferences.DislikeEntry | app/where_to_go.py:166-174 | a user who will not eat f appears in the entry for f |
| Preferences.DrinksOfKeys | app/where_to_go.py:167-171 | one user's items add that user's stripped name if and only if they hold a "drinks" item, and leave every other key alone |
| Preferences.DrinksOfValue | app/where_to_go.py:167-171 | a user's drinks entry is the normalised set of their "drinks" list |
| Preferences.DrinkMapKeys | app/where_to_go.py:164-171 | user_drinks_mappings has distinct keys, and they are exactly the stripped names of users with a "drinks" item |
| Preferences.DrinkMapValue | app/where_to_go.py:166-171 | when stripped names are distinct, a drinker's entry is the normalised set of their "drinks" list |
| Preferences.PreferencesWellNamed | app/where_to_go.py:166-171 | if every user name holds a word, every name stored in either mapping holds one too |
| Recommendation.ReasonsApart | app/where_to_go.py:204 | an eat reason and a drink reason differ; each names exactly one person; their endings tell them apart |
| Recommendation.FlagsMember | app/where_to_go.py:188-204 | the venue loop flags (v, r) exactly when r is this user's reason and a venue named v fails the test |
| Recommendation.FoodFlagsMember | app/where_to_go.py:187-204 | one bad food's users flag (v, r) exactly when r names one of them and v serves nothing or only that food |
| Recommendation.EatFlagsMember | app/where_to_go.py:186-204 | the food pass flags (v, r) exactly when some bad food, and one of its users, give that flag |
| Recommendation.DrinkFlagsMember | app/where_to_go.py:206-217 | the drink pass flags (v, r) exactly when some drinker's reason is r and v offers none of their drinks |
| Recommendation.FlagVenues | app/where_to_go.py:188-204 | the venue loop appends this test's flags, in table order, to what was flagged before |
| Recommendation.FlagUsers | app/where_to_go.py:187-204 | the loop over one bad food's set visits every member once, in the ghost order `us`, and appends their flags |
| Recommendation.EatPass | app/where_to_go.py:186-204 | the food pass goes through the bad foods in map order, and through each set's members in the ghost order `visits` |
| Recommendation.DrinkPass | app/where_to_go.py:206-217 | the drink pass appends each drinker's flags in map order |
| Recommendation.Recommend | app/where_to_go.py:178-224 | `_recommendation` returns `RecommendationOf(venues, prefs, visits)`, where `visits` is the set order met; places_to_visit keeps table order and holds exactly the table venues not avoided; each venue to avoid is listed once, with a non-empty list of distinct reasons |
| Recommendation.AllFlagsMember | app/where_to_go.py:186-217 | a flag is raised exactly when it is an eat reason for a user and a failing venue, or a drink reason for a user and a failing venue |
| Recommendation.FlaggedIsVenue | app/where_to_go.py:186-217 | only venues in the table are flagged |
| Recommendation.ReportAvoided | app/where_to_go.py:223 | places_to_avoid lists v with reason r exactly when the merged dict holds r for v |
| Recommendation.AvoidedIff | app/where_to_go.py:219-223 | the report avoids v for reason r exactly when (v, r) was flagged |
| Recommendation.EatReasonIff | app/where_to_go.py:186-223 | v is avoided because person t has nothing to eat exactly when some user with first word t will not eat a food, and v serves nothing or only that food |
| Recommendation.DrinkReasonIff | app/where_to_go.py:206-223 | v is avoided because t has nothing to drink exactly when a drinker with first word t finds none of their drinks at v |
| Recommendation.Partition | app/where_to_go.py:219-224 | places_to_visit keeps table order; a venue is to visit exactly when it is in the table and not avoided; avoided venues are table venues, each listed once; the venues to avoid come in the order they were first flagged |
| Recommendation.EatValues | app/where_to_go.py:186-204 | every reason the food pass gives a venue is an eat reason |
| Recommendation.DrinkValues | app/where_to_go.py:206-217 | every reason the drink pass gives a venue is a drink reason |
| Recommendation.MergedReasons | app/where_to_go.py:219 | a venue's merged reasons are its food-pass reasons, then its drink-pass reasons, each once; there is at least one |
| Recommendation.ReasonListAt | app/where_to_go.py:219-224 | each entry of places_to_avoid has a non-empty reason list with no repeats, and all eat reasons come before all drink reasons |
| Recommendation.ReasonLists | app/where_to_go.py:219-224 | the same holds for every entry of places_to_avoid |
| Recommendation.FoodlessVenueAvoided | app/where_to_go.py:195-204 | a venue with no food is avoided, and not to visit, once any bad food has a user |
| WhereToGo.GenerateReport | app/where_to_go.py:236-240 | the pipeline sweeps the participants list as dict_subset does; it returns the recommendation for the preferences of the selected users; it needs a word only in the names of users the list asks for |
| WhereToGo.EatFlaggedByUsers | app/where_to_go.py:166-204 | a bad-food set flags v for first word t exactly when a user with that first word will not eat a food v fails |
| WhereToGo.EatReasonForUsers | app/where_to_go.py:166-224 | end to end, v is avoided because t has nothing to eat exactly when a user with first word t will not eat a food f, and v serves nothing or only f |
| WhereToGo.FoodlessVenueAvoidedForUsers | app/where_to_go.py:195-204 | end to end, a venue with no food is avoided, and not to visit, as soon as one participant lists some food under "wont_eat" |

## Left out

- Fetching data over HTTP is not modelled: `_submit_request`, `_process_data_request`, `get_data`, the cache, `_data_entity_iter` and `_convert_results`. The users and venues tables are parameters, already keyed by name.
- The command-line parser and `runner` are not modelled.
- The `NotImplementedError` branch, where the tables are lists, is not modelled. The tables are always association lists.
- `CaseInsensitiveDict` is not modelled. The core only iterates over it, and comparisons go through `strip().lower()`, which is modelled.
- The `logging` calls are not modelled. `dict_subset`'s warnings become the ghost `warned` list; the other messages are dropped.
- Text is `seq<char>`. `lower()` folds only ASCII `A`-`Z`, and the whitespace `strip()` and `split()` see is ASCII: space, tab, line feed, vertical tab, form feed, carriage return and the separators 0x1c-0x1f. Full Unicode case folding and whitespace are not modelled.
- Python's set iteration order is not modelled. It is the ghost order `visits` that the proofs quantify over.
- A venue record with no "food" or "drinks" key raises `KeyError` in Python (lines 195 and 209). The model's `Menu` always has both lists. A user record without "wont_eat" or "drinks" is simply skipped, and the model does the same.
- Values that are not lists of strings are not modelled.
- Recommendation.Recommend: requires every name stored in the preferences to hold a word (`WellNamed`). Python evaluates `split()[0]` only inside the `if` at lines 197 and 211. So a blank-named user whose tests fail at no venue still gets a normal report in Python; the model does not cover that input. When such a user's test does fail, Python raises `IndexError`, and the model does not represent that crash either.
- WhereToGo.GenerateReport: requires a word in the name of every user whose normalised name matches a requested name, since only those users can reach `Recommend`. Like `Recommend`, it does not cover a blank-named participant whose tests never fail. It states its result in terms of specification functions; the end-to-end lemmas beside it give what the report means.
- `_merge_dicts` gets its dicts as lists of pairs, in insertion order, and the model reads them as one flat list (`Flatten`). Python's dict view yields the same pairs in the same order.
- The drink pass has no end-to-end lemma in terms of user records. `DrinkMapKeys` and `DrinkMapValue` state which drinks a user ends up with, and `DrinkReasonIff` states what the drink pass does with them.
