# College recommender core, modelled in Dafny

This project models the recommendation engine of a college-admission
recommender backend and proves properties of it. The engine is the
`CollegeRecommender` class in `backend/recommendation.py`. Two small
helpers from the same backend are modelled too:
- the keyword aspect scoring of one college review, `analyze_review` in
  `backend/reviewUpdate.py`;
- the placement-list extraction and the institute key of the explore page,
  `_extract_placement_lists` and `_key` in `backend/explore.py`.

Tables are sequences of records. A text cell is a `Cell`:
- `Absent` is pandas' `pd.NA`;
- `Nan` is a float NaN;
- `Val(s)` is a string.

Numbers are `Option<real>`. The modules follow the engine's stages:

| file | module | models |
|---|---|---|
| `seqs.dfy` | `Seqs` | shared sequence tools: filtering, a stable insertion sort (proved sorted and a permutation), first-wins deduplication (`keep='first'`) with its ordering lemmas, flat maps, means |
| `text.dfy` | `Text` | ASCII `lower`, `strip`, substring search, `re.split` on a separator class, string order |
| `normalize.dfy` | `Normalize` | `_prepare_master_rank_df`: the `rank_YYYY` snapshots into one canonical rank table, then the left join with the colleges' districts |
| `filters.dfy` | `Filters` | `_clean_user_input`, the tuition-fee-waiver default, `apply_filters` and its fallback cascade |
| `forecast.dfy` | `Forecast` | deduplication by latest round, the target-year fast path, the per-group forecast loop, `_predict_top_colleges_rank_only` |
| `rules.dfy` | `RuleMiner` | `_generate_association_rules`: transactions, the itemset counting loops, minimum support, rules with confidence and lift |
| `boost.dfy` | `Boost` | `_compute_boosts_from_rules`: parsing the stored rules and the additive boost per candidate |
| `recommend.dfy` | `Recommender` | the rank threshold, the quality filter, `_finalize_table`'s merge with the college table and its cut, the model comparator, the final orderings, the status paths of `recommend`, and the class `CollegeRecommender` with its table fields |
| `review.dfy` | `ReviewUpdate` | `analyze_review` |
| `explore.dfy` | `Explore` | `_key` and `_extract_placement_lists` |

## How the model follows the code

**Imperative parts are methods.** These are the loops and the updated
fields, each proved equal to a specification function whose properties are
lemmas:
- `CollegeRecommender` keeps `master_rank_df`, `merged_df`, the college
  table, the quality aggregates and the rules table as fields. Its constructor and
  `PrepareMasterRank`/`EnsureRules` set them.
- The itemset `Counter` is a `map` with its insertion order.
  `CountItemsets`, `CountTransaction` and `CountCombos` increment it.
- The rules are appended in `GenerateRules` and `EmitRules`.
- The boosts accumulate in `ComputeBoosts` and `AddToMatching`.
- The forecast loop appends in `ForecastGroups` and `ForecastKeys`.
- The review's weight sums accumulate in `SumPhrases`, `SumTokenMatches`
  and `ScoreAspects`.
- The explore sets are filled in `AddPieces`, `AddColumns` and
  `ExtractPlacementLists`.

**Pure expressions are functions.** These are the filter chain, the
cleaning and the sort keys.

**Facts the proofs bring out.** Each is stated as a lemma:
- **The cascade never falls back.** Every fallback attempt keeps the
  program filter, and the remaining filters never empty a non-empty set.
  So the cascade always returns the first attempt's result
  (`Filters.CascadeIsFirstAttempt`).
- **Program is not part of the deduplication key.** Rows of two programs
  of one institute in the same year and round compete; only one survives.
- **The fast path is not floored.** It reports closing ranks as recorded;
  only forecasts are floored at 1.
- **The rule check always passes.** The check that a rule's antecedent and
  consequent are frequent (line 518) always succeeds. A frequent itemset
  of size k yields exactly k rules, with confidence at most 1.
- **Single-word keywords are counted twice.** A single-word review keyword
  that occurs in the text counts once in the phrase pass and once more for
  every equal token. Keywords with a non-word character, such as `100%`,
  never match a token.
- **Review-only quality data makes `recommend` raise.** Without placement
  aggregates the quality table is the review aggregates, keyed by institute
  alone; the merge on Institute and Program then raises `KeyError` once a
  prediction reaches the rank (`Recommender.StatusOrder`).
- **Aspect scores start at 1.** They are clipped to `[1, 10]`, so the
  lower bound is 1, not 0.

**Fallback order.** The code tries: all filters; without category; without
category and quota; without those and district; the program alone; then a
plain program-substring search. The model follows the code
(`Filters.Attempts`).

**Missing columns.** A column missing
from a snapshot is filled with `pd.NA`. Its cleaned text is therefore
`<na>`, not the empty string: `Normalize.CleanLiterals` and
`Normalize.MissingStreamColumn` state this.

## Model

| member | source | states |
|---|---|---|
| `Normalize.CleanText` | backend/recommendation.py:109-114 | the cleaned text has no upper-case letter, no surrounding space, is never the literal `nan`, and NaN cleans to the empty string |
| `Normalize.CleanTextFixesClean` | backend/recommendation.py:109-114 | text already lower case, trimmed and other than `nan` cleans to itself |
| `Normalize.CleanTextIgnoresCaseAndSpace` | backend/recommendation.py:109-114 | texts with the same stripped, lower-cased form clean alike; with the previous row this fixes the cleaned value as the stripped, lower-cased text, or empty for `nan` |
| `Normalize.CleanTextIdempotent` | backend/recommendation.py:266-270 | cleaning an already cleaned column again (as the predictor does) changes nothing |
| `Normalize.YearOfSnapshotName` | backend/recommendation.py:81-85 | a snapshot named `rank_<year>` yields that year |
| `Normalize.DecimalValueShow` | backend/recommendation.py:82 | `int` of the printed digits of a year is that year (the parse of the name's suffix inverts its printing) |
| `Normalize.NormalizeRowFacts` | backend/recommendation.py:85-106 | each normalised row carries the snapshot's year, its opening and closing ranks through the number parser (unparsable becomes null), and its round untouched |
| `Normalize.SeatTypeDefault` | backend/recommendation.py:87-88 | a snapshot without a Seat Type column gets the cleaned default `n/a` |
| `Normalize.MissingStreamColumn` | backend/recommendation.py:90-99 | a missing Stream column yields the rendering of `pd.NA`; a present but empty Stream cell yields the empty string |
| `Normalize.LineEnd` | backend/recommendation.py:92 | where `.*` stops: the first line break at or after the match start, or the end of the text |
| `Normalize.RewriteStreamReplacesTail` | backend/recommendation.py:90-95 | in a single-line value the first `B.E/B.Tech`, `B.E/B.Arch` or `B.Tech` marker and everything after it become `b.e/b. tech`, and the text before it is kept |
| `Normalize.RewriteAtMarker` | backend/recommendation.py:90-95 | a single-line value starting with a marker is replaced whole |
| `Normalize.RewriteUnmarkedStep` | backend/recommendation.py:90-95 | a value not starting with a marker keeps its first character and is rewritten after it |
| `Normalize.RewriteStreamUnmarked` | backend/recommendation.py:90-95 | a value with no marker is left unchanged (the rewrite is case-sensitive) |
| `Normalize.CleanLiterals` | backend/recommendation.py:87-112 | `pd.NA` cleans to `<na>`, the seat-type default to `n/a`, and an empty value to the empty string |
| `Normalize.NormalizeTable` | backend/recommendation.py:97-101 | every snapshot row yields exactly one canonical row |
| `Normalize.SnapshotsLength` | backend/recommendation.py:78-79 | only tables named `rank_20…` contribute, each row once: the concatenation has exactly the rank snapshots' row count |
| `Normalize.MasterRank` | backend/recommendation.py:101-104 | the master table has as many rows as the rank snapshots together |
| `Normalize.MasterRankRow` | backend/recommendation.py:78-104 | every row of every rank snapshot, normalised, reaches the master table |
| `Normalize.MatchingRows` | backend/recommendation.py:122-125 | the join's matches for an institute are college rows whose cleaned institute equals it |
| `Normalize.MatchingRowsEmpty` | backend/recommendation.py:125 | there is no match exactly when no college row has that cleaned institute |
| `Normalize.JoinDistrict` | backend/recommendation.py:125 | the left join gives each rank row at least one merged row, each carrying that rank row unchanged |
| `Normalize.JoinDistrictValue` | backend/recommendation.py:123-127 | each joined district is the cleaned district of a college row with the same cleaned institute, or empty exactly when no college row has it |
| `Normalize.JoinRow` | backend/recommendation.py:121-131 | with or without a college table each rank row yields at least one merged row, all carrying it |
| `Normalize.Merge` | backend/recommendation.py:121-131 | the merged table is no shorter than the master table, and equally long without a college table |
| `Normalize.MergeKeepsRows` | backend/recommendation.py:125 | the left join never drops a rank row |
| `Filters.Prepare` | backend/recommendation.py:266-270 | the predictor's working row keeps the year, round and ranks and re-cleans the district |
| `Filters.PrepareKeepsCleanedRow` | backend/recommendation.py:266-270 | re-cleaning columns the master table already cleaned leaves them as they are |
| `Filters.CleanUserInput` | backend/recommendation.py:242-243 | a non-string input gives the empty string; a string's cleaned form has no upper-case letter and no surrounding space |
| `Filters.CleanUserInputFixesClean` | backend/recommendation.py:242-243 | a string already lower case and trimmed is its own cleaned input, `nan` included |
| `Filters.CleanUserInputIgnoresCaseAndSpace` | backend/recommendation.py:242-243 | strings with the same stripped, lower-cased form clean alike, so a string cleans to its stripped, lower-cased form |
| `Filters.CleanUserInputAgrees` | backend/recommendation.py:242-243 | user input is cleaned like a table column except that `nan` is kept, and cleaning twice changes nothing |
| `Filters.TfwCategory` | backend/recommendation.py:272-273 | with no category asked for, the category becomes `tuition fee waiver` exactly when the program contains `tfw`; an explicit category is kept |
| `Filters.UserQuery` | backend/recommendation.py:260-273 | the query holds the five cleaned inputs with the tuition-fee-waiver default |
| `Filters.Lenient` | backend/recommendation.py:245-252 | every row kept contains the value in that column, and nothing is kept exactly when no row contains it |
| `Filters.LenientSpec` | backend/recommendation.py:245-252 | a row is kept exactly when it is an input row holding the value exactly, if any row does, and otherwise exactly when it is an input row containing the value |
| `Filters.Optional` | backend/recommendation.py:284-307 | an optional filter keeps a subset of its input and empties it only when the input was empty |
| `Filters.OptionalSpec` | backend/recommendation.py:284-307 | an optional filter keeps every row when its value is empty or no row contains it, and otherwise keeps exactly what the lenient match keeps |
| `Filters.ProgramStep` | backend/recommendation.py:277-283 | the program filter keeps a subset of the rows |
| `Filters.ProgramStepSpec` | backend/recommendation.py:277-283 | with no program every row is kept; with a program exactly the lenient matches are kept, even when there are none |
| `Filters.ApplyFiltersSpec` | backend/recommendation.py:275-308 | the result is a subset of the program-matched rows, each containing the program, and it is empty exactly when no row matches the program |
| `Filters.FirstNonEmptySameProgram` | backend/recommendation.py:310-318 | attempts sharing the program all return the first attempt's result |
| `Filters.CascadeIsFirstAttempt` | backend/recommendation.py:310-323 | the whole cascade, including the final program-substring search, returns exactly the first attempt's result: the fallbacks never turn an empty result into a non-empty one |
| `Forecast.RoundFirstTotalPreorder` | backend/recommendation.py:325 | the descending text order on rounds, missing rounds last, is a total preorder |
| `Seqs.KeepFirst` | backend/recommendation.py:325-327 | `keep='first'` keeps at most the input's rows, only rows of the input whose key was not seen before, and no two with the same key |
| `Seqs.KeepFirstCovers` | backend/recommendation.py:387-388 | every key of the input not seen before keeps a row |
| `Seqs.KeepFirstSorted` | backend/recommendation.py:387-388 | deduplicating sorted rows keeps them sorted |
| `Seqs.KeepFirstBest` | backend/recommendation.py:325-327 | on rows sorted by a total preorder, each kept row comes no later in that order than any row with its key |
| `Forecast.Dedup` | backend/recommendation.py:325-327 | deduplication keeps input rows only, one per key, and every key of the input survives |
| `Forecast.DedupKeepsLatestRound` | backend/recommendation.py:325-327 | the row kept for a key has the latest round (in text order) of all rows with that key |
| `Forecast.DedupYearsDistinctInGroup` | backend/recommendation.py:325-338 | after deduplication a forecast group holds at most one row per year, so ordering it by year has no ties |
| `Forecast.FastPath` | backend/recommendation.py:331-334 | the fast path has exactly as many rows as the target year has |
| `Forecast.FastPathSpec` | backend/recommendation.py:331-335 | the fast path holds exactly the target year's rows, ordered by closing rank ascending, missing ranks last |
| `Forecast.FastPathNotFloored` | backend/recommendation.py:331-348 | a target-year closing rank of 0.5 is reported as 0.5 by the fast path, while a forecast of it is raised to 1 |
| `Forecast.GroupKeysSorted` | backend/recommendation.py:338-339 | the groups are visited in ascending key order, each once |
| `Forecast.GroupKeysComplete` | backend/recommendation.py:338 | every row's (Institute, Program, Stream, Quota, Category) is a group key, and nothing else is |
| `Forecast.GroupRows` | backend/recommendation.py:338-339 | a group holds only rows of the input with that key |
| `Forecast.LatestValid` | backend/recommendation.py:340-342 | the sorted valid rows are exactly as many as the rows with a closing rank, and all have one |
| `Forecast.LatestValidPermutes` | backend/recommendation.py:340-342 | the sorted valid rows are a permutation of the group's rows that have a closing rank |
| `Forecast.Recent` | backend/recommendation.py:343-344 | the ranks averaged are the two latest valid ones, or fewer when fewer exist |
| `Forecast.RecentDistinctRows` | backend/recommendation.py:342-344 | the averaged rows are distinct rows of the group with a closing rank: a row is counted twice only if the group holds it twice |
| `Forecast.RecentAreLatest` | backend/recommendation.py:342-344 | each averaged rank is the closing rank of a group row, and no valid row left out of the average is newer than one taken into it |
| `Forecast.GroupForecast` | backend/recommendation.py:340-358 | a forecast carries its group's key and predicts the mean of the latest one or two closing ranks (`Recent`, pinned down by `RecentDistinctRows` and `RecentAreLatest`), raised to 1.0 if lower |
| `Forecast.GroupForecastLatestRow` | backend/recommendation.py:350-352 | a forecast's opening rank and seat type are those of a row of the group that no other row precedes in year, rows without a year last |
| `Forecast.GroupForecastPresent` | backend/recommendation.py:340-346 | a group is forecast exactly when one of its rows has a closing rank |
| `Forecast.ForecastOfTwoLatest` | backend/recommendation.py:342-348 | closing ranks 100 (2024) and 120 (2023) forecast 110, whatever an older year says |
| `Forecast.ForecastGroups` | backend/recommendation.py:337-358 | the loop over the groups yields the forecast specification |
| `Forecast.ForecastKeys` | backend/recommendation.py:339-358 | each turn appends the group's forecast, if any, so the loop computes the forecasts of the visited groups in order |
| `Forecast.ForecastStepSpec` | backend/recommendation.py:340-358 | a group adds at most one forecast, valid and carrying its key, and adds one exactly when it has a row with a closing rank |
| `Forecast.ForecastsValid` | backend/recommendation.py:337-358 | every forecast is at least 1 and its group has a row with a closing rank |
| `Forecast.ForecastsCoverValidGroups` | backend/recommendation.py:337-358 | every group with a row that has a closing rank is forecast; groups without one are omitted |
| `Forecast.ForecastsOrdered` | backend/recommendation.py:338-358 | forecasts come in strictly ascending group order, one per group |
| `Forecast.PredictTopColleges` | backend/recommendation.py:257-363 | the predictor computes the specification: cascade, deduplication, then the fast path when the target year occurs, else the forecast |
| `Forecast.RankedOutputEmpty` | backend/recommendation.py:329-363 | after deduplication the result is empty exactly when the target year is absent and no row has a closing rank |
| `Forecast.PredictEmpty` | backend/recommendation.py:310-363 | the predictor returns nothing exactly when no row passes the program filter, or when the target year is absent and no deduplicated row has a closing rank |
| `RuleMiner.Present` | backend/recommendation.py:485-486 | an attribute yields a value exactly when it is text that is not blank, and the value has no upper-case letter and no surrounding space |
| `RuleMiner.ItemsFromSpec` | backend/recommendation.py:483-487 | a row's items are exactly the `attr=value` items of the attributes whose value is present |
| `RuleMiner.TransactionsSorted` | backend/recommendation.py:480-489 | every transaction is non-empty and strictly ascending, so empty rows are skipped and N counts only non-empty ones |
| `RuleMiner.BuildTransactions` | backend/recommendation.py:480-489 | the loop over the rows builds the transactions |
| `RuleMiner.CollectItems` | backend/recommendation.py:483-487 | the loop over a row's attributes collects its `attr=value` items |
| `RuleMiner.CountAntiMonotone` | backend/recommendation.py:496-501 | a larger itemset is contained in no more transactions |
| `RuleMiner.CombosShape` | backend/recommendation.py:500 | every combination of size k is a k-item subset of the transaction |
| `RuleMiner.CombosCover` | backend/recommendation.py:500 | every k-item subset of the transaction is among the combinations |
| `RuleMiner.CombosDistinct` | backend/recommendation.py:500 | no combination is produced twice |
| `RuleMiner.SubsetsSpec` | backend/recommendation.py:499-501 | for one transaction the counting loops visit exactly its subsets of one to three items |
| `RuleMiner.TallySpec` | backend/recommendation.py:496-501 | after counting, the counter holds for each itemset of one to three items the number of transactions containing it, and zero otherwise |
| `RuleMiner.TallyWellFormed` | backend/recommendation.py:496-501 | the counter's keys in insertion order are the counted itemsets, each once |
| `RuleMiner.BumpAllSpec` | backend/recommendation.py:500-501 | counting distinct itemsets adds one to each of them and nothing else |
| `RuleMiner.CountItemsets` | backend/recommendation.py:496-501 | the counting loop over the transactions computes the counter |
| `RuleMiner.CountTransaction` | backend/recommendation.py:498-501 | the loops over the sizes of one transaction add its subsets |
| `RuleMiner.CountCombos` | backend/recommendation.py:500-501 | the loop over the combinations increments each |
| `RuleMiner.SupportOf` | backend/recommendation.py:504-507 | the support map has an entry exactly for the counted itemsets with count/N at least the minimum support |
| `RuleMiner.Support` | backend/recommendation.py:507 | support lies between 0 and 1 |
| `RuleMiner.SupportMonotone` | backend/recommendation.py:504-507 | a superset has no more support |
| `RuleMiner.SupportOfFrequent` | backend/recommendation.py:504-507 | the support map reports count/N for every frequent itemset of one to three items |
| `RuleMiner.SubsetFrequent` | backend/recommendation.py:504-518 | every non-empty subset of a frequent itemset is frequent |
| `RuleMiner.RuleForSpec` | backend/recommendation.py:515-524 | the check at line 518 always passes, and the rule has confidence sup(A∪B)/sup(A) and lift confidence/sup(B) |
| `RuleMiner.RulesPerItemset` | backend/recommendation.py:510-531 | a frequent itemset of k ≥ 2 items yields exactly k rules |
| `RuleMiner.ConfidenceBounds` | backend/recommendation.py:519-524 | a rule has 0 < support ≤ confidence ≤ 1 and positive lift |
| `RuleMiner.ConfidenceFirstTotalPreorder` | backend/recommendation.py:536 | confidence descending, then support descending, is a total preorder |
| `RuleMiner.RuleStep` | backend/recommendation.py:515-524 | one consequent of a frequent itemset yields the rule of the rule specification: `s - {x} => x` when both sides have a support, nothing otherwise |
| `RuleMiner.EmitRules` | backend/recommendation.py:514-531 | the loop over one itemset's items emits its rules |
| `RuleMiner.GenerateRules` | backend/recommendation.py:469-539 | the miner computes the specification: transactions, counting, rules, sort |
| `RuleMiner.MinedRulesSorted` | backend/recommendation.py:533-538 | the mined rules are sorted by confidence then support, both descending, and are a permutation of the generated rules |
| `RuleMiner.NoTransactionsNoRules` | backend/recommendation.py:491-493 | without an item in any row there are no rules |
| `Boost.PiecesOfClean` | backend/recommendation.py:579-580 | clean items survive the split, strip and blank filter unchanged |
| `Boost.EmptyItemList` | backend/recommendation.py:579-581 | an empty or missing antecedent parses to no items |
| `Boost.ItemListRoundTrip` | backend/recommendation.py:579 | the antecedent the miner stores for a set of clean items parses back to that set |
| `Boost.SingleItemRoundTrip` | backend/recommendation.py:580 | a stored consequent parses back to its single item |
| `Boost.MinedRuleReadsBack` | backend/recommendation.py:516-580 | a mined rule read back from its row has antecedent `s - {x}` and consequent `{x}` |
| `Boost.AttrValues` | backend/recommendation.py:562-575 | the user's filters and each candidate row give one cell per rule attribute |
| `Boost.ComputeBoosts` | backend/recommendation.py:544-593 | no rules give an empty map; only candidate keys get boosts; each key's boost is the sum of confidence×support over the rules that fire for the user and whose consequent the candidate holds |
| `Boost.BuildCandidateAttrs` | backend/recommendation.py:561-569 | the loop builds each candidate key's item set, a later row of the same key replacing an earlier one |
| `Boost.ParsePieces` | backend/recommendation.py:579-580 | the comprehension parses an item list into its items |
| `Boost.AddToMatching` | backend/recommendation.py:585-592 | every candidate holding the consequent gains the rule's value, and the others keep theirs |
| `Boost.BoostStep` | backend/recommendation.py:578-592 | one rule of the loop keeps the table equal to the boost over the rules seen so far |
| `Boost.BoostNonNegative` | backend/recommendation.py:589-592 | rules with non-negative numbers never give a negative boost |
| `Boost.BoostMonotone` | backend/recommendation.py:584-592 | a candidate with more items collects at least the boost of one with fewer |
| `Boost.NoFiltersNoBoost` | backend/recommendation.py:572-584 | a user who supplied no filter gets no boost |
| `Boost.BoostAppend` | backend/recommendation.py:578-592 | boosts add up over a split rule table |
| `Boost.UnparsableRuleAddsNothing` | backend/recommendation.py:588-591 | a rule whose numbers do not parse adds nothing |
| `Recommender.AboveRankSpec` | backend/recommendation.py:757 | exactly the predictions at or above the user's rank survive, sorted by predicted closing rank ascending, and none survive exactly when none reaches the rank |
| `Recommender.WithQuality` | backend/recommendation.py:763-776 | each prediction gets its quality scores, filled with 0 when missing, in the same order |
| `Recommender.MetricsFirstTotalPreorder` | backend/recommendation.py:378-387 | average CTC descending, then overall score descending, then predicted rank ascending, is a total preorder |
| `Recommender.PassingSpec` | backend/recommendation.py:370-373 | a row passes exactly when it meets each threshold the user asked for |
| `Recommender.MetricsFilterRows` | backend/recommendation.py:368-391 | the quality filter returns at most ten input rows, each meeting the thresholds, no two with the same key |
| `Recommender.MetricsFilterSorted` | backend/recommendation.py:378-389 | the quality filter's rows are in the metrics order |
| `Recommender.MetricsFilterBest` | backend/recommendation.py:387-389 | each kept row is the best, in the metrics order, of the passing rows with its key |
| `Recommender.MetricsFilterEmpty` | backend/recommendation.py:375-376 | the quality filter is empty exactly when no row meets the thresholds |
| `Recommender.CollegeMatches` | backend/recommendation.py:396-397 | the college rows a ranked row joins all have its cleaned institute |
| `Recommender.FinalRows` | backend/recommendation.py:396-403 | the left merge gives a ranked row one final row per college row of its institute, in the college table's order, each with that row's cleaned district, or a single row with district '' when none matches; every such row carries the ranked row's columns and ranks filled with 0 |
| `Recommender.FinalRowsDistrict` | backend/recommendation.py:396-403 | each merged row's district is '' or the cleaned district of a college row with its institute |
| `Recommender.Finalize` | backend/recommendation.py:393-439 | the final table has at most ten rows, and at least ten or as many as there are ranked rows, since the merge drops none |
| `Recommender.FinalizeFrom` | backend/recommendation.py:393-439 | each final row is a ranked row whose district comes from the college table |
| `Recommender.FinalizeOneToOne` | backend/recommendation.py:393-439 | with at most one college row per institute, the final table is the first ten ranked rows in order |
| `Recommender.FinalizeRepeatsInstitute` | backend/recommendation.py:396-439 | an institute listed k times in the college table turns the first ranked row into k final rows, one per district, before `head(10)` |
| `Recommender.Candidates` | backend/recommendation.py:803-808 | the boost sees one candidate per final row |
| `Recommender.LookupColumnIsBoostColumn` | backend/recommendation.py:810-816 | filling the boost column from the computed map gives each row its boost |
| `Recommender.CleanRowFindsItsBoost` | backend/recommendation.py:801-816 | a final row whose institute and program were cleaned already looks its boost up under the key the boost was stored under |
| `Recommender.ChooseModel` | backend/recommendation.py:681-728 | the decision tree is chosen exactly when it was trained and its accuracy strictly exceeds the heuristic's |
| `Recommender.OrdersTotalPreorder` | backend/recommendation.py:867-872 | both final orders (boost, then rank; boost, then probability, then rank) are total preorders |
| `Recommender.FinalOrderPermutes` | backend/recommendation.py:867-878 | boosting only reorders the at most ten finalised rows: the result is a permutation of them, sorted by the chosen model's keys |
| `Recommender.FinalOrderKeepsBound` | backend/recommendation.py:867-878 | reordering keeps every row, and so every closing rank bound |
| `Recommender.ErrorsCarryNoData` | backend/recommendation.py:749-880 | an answer has no data exactly when it is an error or the merge raised; the warning carries empty data |
| `Recommender.StatusOrder` | backend/recommendation.py:749-764 | no predictions is an error whatever the rank; then an unparsable rank; then an error exactly when no prediction reaches the rank; the quality merge raises exactly when those checks pass and the quality table is the review aggregates alone |
| `Recommender.WarningNeedsThreshold` | backend/recommendation.py:779-786 | the warning arises only when the user asked for a quality threshold |
| `Recommender.KeptReachable` | backend/recommendation.py:763-782 | rows reaching the rank still reach it after the quality merge and filter |
| `Recommender.RankingSuccess` | backend/recommendation.py:763-880 | after the threshold a success holds one to ten colleges, each reaching the rank |
| `Recommender.SuccessSpec` | backend/recommendation.py:736-880 | a success holds one to ten colleges, each with predicted closing rank at least the user's rank |
| `Recommender.Answer` | backend/recommendation.py:749-880 | the method computes the answer's specification from the predictions |
| `Recommender.RankCandidates` | backend/recommendation.py:763-880 | the method computes the ranking after the threshold |
| `Recommender.RuleRows` | backend/recommendation.py:525-531 | each mined rule is stored as one row |
| `Recommender.CollegeRecommender.constructor` | backend/recommendation.py:33-47 | construction sets the master rank table, its merge with the colleges, the college table kept for the final merge, the quality inputs, and the saved or freshly mined rules |
| `Recommender.CollegeRecommender.PrepareMasterRank` | backend/recommendation.py:74-133 | sets `master_rank_df` to the normalised snapshots and `merged_df` to their join with the colleges, changing no other field |
| `Recommender.CollegeRecommender.EnsureRules` | backend/recommendation.py:444-467 | sets the rules to the saved ones when readable, else to the rules mined from `merged_df`, changing no other field |
| `Recommender.CollegeRecommender.Recommend` | backend/recommendation.py:736-880 | `recommend` is the predictor followed by the answer's specification on the object's tables |
| `ReviewUpdate.StripPunctuation` | backend/reviewUpdate.py:88 | the punctuation-free text holds only word characters and whitespace |
| `ReviewUpdate.TokensSpec` | backend/reviewUpdate.py:86-90 | a token is exactly a word of the punctuation-free lower-cased text that is not a stop word and has more than two characters |
| `ReviewUpdate.SumPhrases` | backend/reviewUpdate.py:101-108 | the phrase loop sums the weights of the keywords occurring in the text |
| `ReviewUpdate.MatchToken` | backend/reviewUpdate.py:112-119 | the inner loop adds the weight of each single-word keyword equal to the token |
| `ReviewUpdate.SumTokenMatches` | backend/reviewUpdate.py:110-119 | the token pass accumulates positive and negative weights |
| `ReviewUpdate.ScoreAspect` | backend/reviewUpdate.py:97-132 | one aspect's score: both passes, scaled and clipped |
| `ReviewUpdate.ScoreAspects` | backend/reviewUpdate.py:96-132 | the loop over the aspects fills one score per aspect |
| `ReviewUpdate.AspectScores` | backend/reviewUpdate.py:96-132 | one score per aspect |
| `ReviewUpdate.AnalyzeReview` | backend/reviewUpdate.py:67-163 | the method computes the analysis specification |
| `ReviewUpdate.MissingReviewDefaults` | backend/reviewUpdate.py:71-83 | a missing or empty review gets no words, zero sentiment, zero scores and rating 3 |
| `ReviewUpdate.PhraseWeightOnce` | backend/reviewUpdate.py:101-108 | the phrase pass adds each keyword occurring in the text exactly once |
| `ReviewUpdate.TokenWeightCounts` | backend/reviewUpdate.py:110-119 | the token pass adds a single-word keyword once per equal token |
| `ReviewUpdate.SingleWordCountedTwice` | backend/reviewUpdate.py:101-119 | a single-word keyword occurring in the text counts its weight once plus once per equal token |
| `ReviewUpdate.NonWordKeywordNeverMatches` | backend/reviewUpdate.py:88-115 | a keyword with a non-word character never equals a token |
| `ReviewUpdate.ScaleSpec` | backend/reviewUpdate.py:122-132 | the scaled score is 5 + raw/2 clipped to [1, 10]: 1 from raw -8 down, 10 from raw 10 up, and always a multiple of 0.5 (so rounding to one decimal changes nothing) |
| `ReviewUpdate.ScaleMonotone` | backend/reviewUpdate.py:122-130 | more net positive weight never lowers a score |
| `ReviewUpdate.AspectScoreBounds` | backend/reviewUpdate.py:127-130 | every aspect score lies in [1, 10] |
| `ReviewUpdate.ScoresInRange` | backend/reviewUpdate.py:127-139 | for a non-empty review all five scores and their mean lie in [1, 10] |
| `ReviewUpdate.RatingRange` | backend/reviewUpdate.py:142-151 | the rating is 1 to 5 stars |
| `ReviewUpdate.RatingMonotone` | backend/reviewUpdate.py:142-151 | a higher overall score never gets a lower rating |
| `ReviewUpdate.RatingThresholds` | backend/reviewUpdate.py:142-151 | at least 5, 4, 3 or 2 stars exactly from 8.5, 6.5, 4.5 or 2.5 |
| `ReviewUpdate.BalancedReviewIsNeutral` | backend/reviewUpdate.py:122-151 | a review whose positive and negative weights cancel for every aspect scores 5 everywhere and gets 3 stars |
| `Explore.Key` | backend/explore.py:84-85 | the key has no upper-case letter and no surrounding whitespace |
| `Explore.KeyOfNothing` | backend/explore.py:84-85 | a missing or empty name gives the empty key |
| `Explore.KeyIdempotent` | backend/explore.py:84-85 | keying a key gives it back |
| `Explore.KeyIgnoresCaseAndSpace` | backend/explore.py:84-85 | names differing only in letter case and surrounding whitespace get the same key |
| `Explore.FirstValueSpec` | backend/explore.py:203 | the `or` chain yields the first usable column's text, and nothing exactly when no column is usable |
| `Explore.CellPieceClean` | backend/explore.py:206-223 | every piece is non-blank, trimmed, free of separators, and occurs in the cell |
| `Explore.BatchYearMatches` | backend/explore.py:200 | worked example: `Batch 2019` is a batch token |
| `Explore.BatchAnyCaseAndGapMatches` | backend/explore.py:200 | worked example: `placed BATCH_-21`, in upper case with two gap characters, is a batch token |
| `Explore.CompanyNameDoesNotMatch` | backend/explore.py:200 | worked example: `Infosys` is not a batch token |
| `Explore.BatchTokenAnywhere` | backend/explore.py:215 | `search` finds a batch token wherever it sits: text around one does not hide it |
| `Explore.AddPieces` | backend/explore.py:206-216 | the loop over a cell's pieces adds the kept, stripped, non-blank pieces |
| `Explore.AddColumns` | backend/explore.py:211-223 | the loop over the listed columns adds the pieces of every usable column |
| `Explore.ExtractPlacementLists` | backend/explore.py:178-232 | the method computes the placement-lists specification |
| `Explore.NoRowsNoLists` | backend/explore.py:190-196 | no rows give no programs and three empty lists |
| `Explore.ListsSortedAndCounted` | backend/explore.py:224-232 | the three lists are strictly ascending, hold no blank entry, and `num_programs` is the number of programs |
| `Explore.ListedSpec` | backend/explore.py:224-226 | a sorted list holds exactly the non-blank members of its set |
| `Explore.ProgramListed` | backend/explore.py:203-209 | a program is listed exactly when it is a piece of some row's first usable program column |
| `Explore.RecruiterListed` | backend/explore.py:211-216 | a recruiter is listed exactly when it is a piece of a usable recruiter column of some row, from any such column, and has no batch token |
| `Explore.ProfileListed` | backend/explore.py:218-223 | a job profile is listed exactly when it is a piece of a usable job column of some row, with no batch filtering |

## Left out

- CSV loading (`_load_all_data`, backend/recommendation.py:55-69), the rules file and the explore page's module-level reads are filesystem I/O. The tables, the saved rules (or their absence) and the placement rows are inputs.
- `_ensure_rules`: reading the saved rules file, and the exception fallback to mining, is one `Option` input. Writing mined rules to disk is left out.
- `_prepare_quality_data` and the merge, rename and reindex plumbing of `_finalize_table` (backend/recommendation.py:138-219, 394-437) are column assembly. Of the college table only the institute and district are kept. The merges with the placement and review tables (lines 405-409) are not modelled, and so neither are the extra rows they would add for an institute or program listed there more than once. The quality aggregates are an input table: keyed by (institute, program) when placement aggregates exist, or the review aggregates alone, which have no `Program` column, so the merge at line 763 raises `KeyError` (`Recommender.QualityTable`). A final row keeps the columns the ordering and the answer use.
- The scikit-learn decision tree, label encoding, train/test split and metrics (backend/recommendation.py:686-723, 825-865) are a foreign library. The accuracies, whether training happened, and the tree's probability per row are inputs. Only the comparator is modelled.
- Floating point: ranks, support, confidence, lift, boosts and scores are exact reals. `round(…, 6)` on rule metrics and `round(…, 1)`/`round(…, 2)` in `analyze_review` are not applied. `ReviewUpdate.ScaleSpec` shows the aspect scores are multiples of 0.5, so their own rounding is the identity; the mean of the five is kept exact.
- `pd.to_numeric` and `float(...)` parsing are a parameter `parse: string -> Option<real>`, and the user's rank arrives parsed (`Option<real>`).
- `Recommender.Recommendation`: the rank is a real or unparsable, so `float("nan")` and `float("inf")`, which the source accepts at backend/recommendation.py:753, are not expressible. With `nan` or `inf` no prediction passes the threshold at line 757 and the source answers the "No colleges found" error of line 760; with `-inf` every prediction with a predicted rank passes, as with any rank below all of them.
- `str.contains` and the stream rewrite are regular expressions in pandas. A filter value is matched as a literal substring. The stream pattern is modelled for its three literal alternatives with `.*` running to the end of the line.
- Sorting: pandas' default sort is not stable. The model sorts stably, and every ordering contract states only sortedness and permutation, so tie order is not claimed. Likewise `RuleMiner.EmitRules` takes an itemset's consequents in ascending item order, where the source iterates the frozenset in hash order (backend/recommendation.py:513-514); this only changes the order of rules with equal confidence and support.
- Text functions are ASCII only. Unicode case mapping and whitespace, and `\w`/`\s`/`\d` beyond ASCII, are not modelled.
- VADER sentiment and the NLTK stop-word list (backend/reviewUpdate.py:24-37, 93) are parameters. `str()` of a non-string review is not modelled: a review is a string or missing.
- The `scores_list` empty branch of `analyze_review` (backend/reviewUpdate.py:138-139) cannot happen with five aspects; the model takes the mean directly.
- The aspect scores are returned by index of `ASPECT_KEYWORDS`, not as a dictionary keyed by name; the accumulation into positive and negative totals is the same sum.
- Metadata getters, console prints, the Flask routes, `ai.py`, `top.py`, the explore page's other helpers and `main` of the review script are outside this model.
- `Boost.MinedRuleReadsBack`: requires every item to be a clean item (non-blank, no surrounding space, no `;`). Values containing `;` are not round-tripped by the source either.
- `Forecast.DedupKeepsLatestRound`: rounds compare in code-point order of their text, as pandas compares strings; the model does not interpret rounds as numbers.
- `Forecast.ForecastsOrdered`: `groupby` visits groups in ascending key order; the model uses code-point order of the five key strings.
- `Recommender.FinalOrderPermutes`: stated for a table of at most ten rows, which is what `_finalize_table` returns.
