// The recommendation engine: the object holding the prepared tables, and
// `recommend`, which turns the predictor's rows into a status and at most
// ten ranked colleges.

module Recommender {
  import opened Seqs
  import opened Normalize
  import opened Filters
  import opened Forecast
  import RuleMiner
  import Boost

  /** `head(10)` of the final table. */
  const TopN: nat := 10

  // ---------------------------------------------------------------------
  // Rank threshold
  // ---------------------------------------------------------------------

  /** `fillna(0)` of a numeric column. */
  function Fill(v: Option<real>): real
  {
    match v
    case Some(x) => x
    case None => 0.0
  }

  /** The predicted closing rank is at least the user's rank (a missing
      prediction compares false). */
  predicate Reachable(rank: real, p: Prediction)
  {
    p.predicted.Some? && p.predicted.value >= rank
  }

  function ReachableFrom(rank: real): Prediction -> bool
  {
    (p: Prediction) => Reachable(rank, p)
  }

  /** Predicted closing rank ascending. */
  predicate PredictedFirst(a: Prediction, b: Prediction)
  {
    Fill(a.predicted) <= Fill(b.predicted)
  }

  lemma PredictedFirstTotalPreorder()
    ensures TotalPreorder(PredictedFirst)
  {
  }

  /** The predictions at or above the user's rank, best (lowest) predicted
      rank first. */
  function AboveRank(preds: seq<Prediction>, rank: real): seq<Prediction>
  {
    SortBy(Filter(preds, ReachableFrom(rank)), PredictedFirst)
  }

  /** Exactly the reachable predictions survive, in ascending order of
      predicted rank. */
  lemma AboveRankSpec(preds: seq<Prediction>, rank: real)
    ensures multiset(AboveRank(preds, rank)) == multiset(Filter(preds, ReachableFrom(rank)))
    ensures SortedBy(AboveRank(preds, rank), PredictedFirst)
    ensures forall i :: 0 <= i < |AboveRank(preds, rank)| ==> Reachable(rank, AboveRank(preds, rank)[i])
    ensures AboveRank(preds, rank) == [] <==> forall i :: 0 <= i < |preds| ==> !Reachable(rank, preds[i])
  {
    var kept := Filter(preds, ReachableFrom(rank));
    SortByPermutes(kept, PredictedFirst);
    PredictedFirstTotalPreorder();
    SortBySorted(kept, PredictedFirst);
    FilterEmpty(preds, ReachableFrom(rank));
    var sorted := AboveRank(preds, rank);
    forall i | 0 <= i < |sorted| ensures Reachable(rank, sorted[i]) {
      assert sorted[i] in multiset(kept);
      var j :| 0 <= j < |kept| && kept[j] == sorted[i];
    }
    if sorted == [] {
      assert |kept| == 0;
    }
  }

  // ---------------------------------------------------------------------
  // Quality scores
  // ---------------------------------------------------------------------

  /** The quality aggregates of an (institute, program): average CTC, the
      placements score and the overall aspect score, each possibly
      missing. */
  datatype QualityRow = QualityRow(maxCtc: Option<real>, placements: Option<real>, overall: Option<real>)

  /** `combined_quality_df` as `recommend` meets it: keyed by (institute,
      program) when the placement aggregates are present (an empty map is
      the empty frame, which is not merged), or the review aggregates
      alone, which are keyed by institute and have no `Program` column. */
  datatype QualityTable =
    | ByProgram(rows: map<Boost.Key, QualityRow>)
    | ReviewsOnly

  /** A prediction with its quality scores filled in. */
  datatype Scored = Scored(pred: Prediction, ctc: real, placements: real, overall: real)

  /** The left merge on (institute, program) followed by `fillna(0)`. */
  function WithQuality(preds: seq<Prediction>, quality: map<Boost.Key, QualityRow>): (r: seq<Scored>)
    ensures |r| == |preds|
    ensures forall i :: 0 <= i < |r| ==> r[i].pred == preds[i]
  {
    seq(|preds|, i requires 0 <= i < |preds| =>
      var k := (preds[i].institute, preds[i].program);
      if k in quality then
        Scored(preds[i], Fill(quality[k].maxCtc), Fill(quality[k].placements), Fill(quality[k].overall))
      else Scored(preds[i], 0.0, 0.0, 0.0))
  }

  // ---------------------------------------------------------------------
  // The quality thresholds
  // ---------------------------------------------------------------------

  function CtcAtLeast(min: real): Scored -> bool
  {
    (s: Scored) => s.ctc >= min
  }

  function PlacementsAtLeast(min: real): Scored -> bool
  {
    (s: Scored) => s.placements >= min
  }

  /** A row passes the thresholds the user asked for (a threshold of 0 or
      less is not asked for). */
  predicate PassesThresholds(s: Scored, minCtc: real, minPlacements: real)
  {
    (minCtc > 0.0 ==> s.ctc >= minCtc) && (minPlacements > 0.0 ==> s.placements >= minPlacements)
  }

  /** Average CTC descending, then overall score descending, then predicted
      rank ascending. */
  predicate MetricsFirst(a: Scored, b: Scored)
  {
    a.ctc > b.ctc
    || (a.ctc == b.ctc && (a.overall > b.overall
                          || (a.overall == b.overall && Fill(a.pred.predicted) <= Fill(b.pred.predicted))))
  }

  lemma MetricsFirstTotalPreorder()
    ensures TotalPreorder(MetricsFirst)
  {
  }

  /** The columns `drop_duplicates` compares in the quality filter. */
  datatype RowKey = RowKey(institute: string, program: string, stream: string, quota: string, category: string)

  function RowKeyOf(s: Scored): RowKey
  {
    RowKey(s.pred.institute, s.pred.program, s.pred.stream, s.pred.quota, s.pred.category)
  }

  /** `_filter_top_colleges_by_metrics`: the thresholds the user asked
      for, then the order above, one row per key, the first ten. */
  function MetricsFilter(rows: seq<Scored>, minCtc: real, minPlacements: real): seq<Scored>
  {
    var byCtc := if minCtc > 0.0 then Filter(rows, CtcAtLeast(minCtc)) else rows;
    var passed := if minPlacements > 0.0 then Filter(byCtc, PlacementsAtLeast(minPlacements)) else byCtc;
    if passed == [] then []
    else Take(KeepFirst(SortBy(passed, MetricsFirst), RowKeyOf, {}), TopN)
  }

  /** The rows that pass the thresholds. */
  function Passing(rows: seq<Scored>, minCtc: real, minPlacements: real): seq<Scored>
  {
    var byCtc := if minCtc > 0.0 then Filter(rows, CtcAtLeast(minCtc)) else rows;
    if minPlacements > 0.0 then Filter(byCtc, PlacementsAtLeast(minPlacements)) else byCtc
  }

  /** A row passes both filters exactly when it meets the thresholds. */
  lemma PassingSpec(rows: seq<Scored>, minCtc: real, minPlacements: real)
    ensures forall x :: x in Passing(rows, minCtc, minPlacements) <==> x in rows && PassesThresholds(x, minCtc, minPlacements)
  {
    var byCtc := if minCtc > 0.0 then Filter(rows, CtcAtLeast(minCtc)) else rows;
    if minCtc > 0.0 {
      FilterIn(rows, CtcAtLeast(minCtc));
    }
    if minPlacements > 0.0 {
      FilterIn(byCtc, PlacementsAtLeast(minPlacements));
    }
  }

  /** The quality filter sorts the passing rows and keeps the first row of
      each key, at most ten. */
  lemma MetricsFilterShape(rows: seq<Scored>, minCtc: real, minPlacements: real)
    ensures var passed := Passing(rows, minCtc, minPlacements);
            MetricsFilter(rows, minCtc, minPlacements) ==
              if passed == [] then [] else Take(KeepFirst(SortBy(passed, MetricsFirst), RowKeyOf, {}), TopN)
  {
  }

  /** The quality filter returns at most ten rows, each an input row
      meeting the thresholds, no two with the same key. */
  lemma MetricsFilterRows(rows: seq<Scored>, minCtc: real, minPlacements: real)
    ensures var r := MetricsFilter(rows, minCtc, minPlacements);
            && |r| <= TopN
            && (forall i :: 0 <= i < |r| ==> r[i] in rows && PassesThresholds(r[i], minCtc, minPlacements))
            && (forall i, j :: 0 <= i < j < |r| ==> RowKeyOf(r[i]) != RowKeyOf(r[j]))
  {
    var passed := Passing(rows, minCtc, minPlacements);
    MetricsFilterShape(rows, minCtc, minPlacements);
    PassingSpec(rows, minCtc, minPlacements);
    if passed != [] {
      var sorted := SortBy(passed, MetricsFirst);
      SortByPermutes(passed, MetricsFirst);
      var kept := KeepFirst(sorted, RowKeyOf, {});
      var r := Take(kept, TopN);
      forall i | 0 <= i < |r| ensures r[i] in rows && PassesThresholds(r[i], minCtc, minPlacements) {
        assert r[i] == kept[i] && kept[i] in sorted;
        assert kept[i] in multiset(passed);
      }
    }
  }

  /** The quality filter's rows are in the metrics order. */
  lemma MetricsFilterSorted(rows: seq<Scored>, minCtc: real, minPlacements: real)
    ensures SortedBy(MetricsFilter(rows, minCtc, minPlacements), MetricsFirst)
  {
    var passed := Passing(rows, minCtc, minPlacements);
    MetricsFilterShape(rows, minCtc, minPlacements);
    if passed != [] {
      MetricsFirstTotalPreorder();
      SortBySorted(passed, MetricsFirst);
      KeepFirstSorted(SortBy(passed, MetricsFirst), RowKeyOf, {}, MetricsFirst);
    }
  }

  /** Each row the quality filter keeps is the best, in the metrics order,
      of the passing rows with its key. */
  lemma MetricsFilterBest(rows: seq<Scored>, minCtc: real, minPlacements: real)
    ensures var r := MetricsFilter(rows, minCtc, minPlacements);
            forall i, x :: (0 <= i < |r| && x in rows && PassesThresholds(x, minCtc, minPlacements)
                            && RowKeyOf(x) == RowKeyOf(r[i])) ==> MetricsFirst(r[i], x)
  {
    var passed := Passing(rows, minCtc, minPlacements);
    MetricsFilterShape(rows, minCtc, minPlacements);
    PassingSpec(rows, minCtc, minPlacements);
    if passed != [] {
      var sorted := SortBy(passed, MetricsFirst);
      SortByPermutes(passed, MetricsFirst);
      MetricsFirstTotalPreorder();
      SortBySorted(passed, MetricsFirst);
      KeepFirstBest(sorted, RowKeyOf, {}, MetricsFirst);
      var r := MetricsFilter(rows, minCtc, minPlacements);
      forall i, x | 0 <= i < |r| && x in rows && PassesThresholds(x, minCtc, minPlacements) && RowKeyOf(x) == RowKeyOf(r[i])
        ensures MetricsFirst(r[i], x)
      {
        assert x in multiset(sorted);
        var j :| 0 <= j < |sorted| && sorted[j] == x;
      }
    }
  }

  /** The quality filter is empty only when no row meets the thresholds. */
  lemma MetricsFilterEmpty(rows: seq<Scored>, minCtc: real, minPlacements: real)
    ensures MetricsFilter(rows, minCtc, minPlacements) == [] <==>
              forall x :: x in rows ==> !PassesThresholds(x, minCtc, minPlacements)
  {
    var passed := Passing(rows, minCtc, minPlacements);
    MetricsFilterShape(rows, minCtc, minPlacements);
    PassingSpec(rows, minCtc, minPlacements);
    if passed != [] {
      var sorted := SortBy(passed, MetricsFirst);
      SortByPermutes(passed, MetricsFirst);
      assert passed[0] in passed && passed[0] in multiset(sorted);
      KeepFirstCovers(sorted, RowKeyOf, {}, passed[0]);
      assert KeepFirst(sorted, RowKeyOf, {}) != [];
    } else {
      forall x | x in rows ensures !PassesThresholds(x, minCtc, minPlacements) {
        assert x !in passed;
      }
    }
  }

  // ---------------------------------------------------------------------
  // The final table
  // ---------------------------------------------------------------------

  /** A record of the answer: the prediction's columns, `Closing Rank`
      (the predicted rank), both ranks with `fillna(0)`, and the college's
      district. */
  datatype FinalRow = FinalRow(institute: string, program: string, stream: string, seatType: string,
                               quota: string, category: string, opening: real, closing: real,
                               district: string)

  /** A ranked row of `_finalize_table` with the district the college
      merge gave it. */
  function FinalOf(s: Scored, district: string): FinalRow
  {
    var p := s.pred;
    FinalRow(p.institute, p.program, p.stream, p.seatType, p.quota, p.category,
             Fill(p.opening), Fill(p.predicted), district)
  }

  /** The rows of the college table (`full_college_df`, institute cleaned)
      that a ranked row joins: none when the table is absent. */
  function CollegeMatches(s: Scored, college: Option<seq<CollegeRow>>): (r: seq<CollegeRow>)
    ensures forall k :: 0 <= k < |r| ==> CleanText(r[k].institute) == s.pred.institute
  {
    match college
    case None => []
    case Some(c) => MatchingRows(s.pred.institute, c)
  }

  /** The left merge of one ranked row with the college table on
      `Institute`: one row per matching college row, in the table's order,
      each with that row's cleaned district; a single row with district ''
      when none matches (an absent or empty table fills '' too). */
  function FinalRows(s: Scored, college: Option<seq<CollegeRow>>): (r: seq<FinalRow>)
    ensures |r| >= 1
    ensures forall k :: 0 <= k < |r| ==> r[k] == FinalOf(s, r[k].district)
    ensures CollegeMatches(s, college) == [] ==> r == [FinalOf(s, "")]
    ensures CollegeMatches(s, college) != [] ==>
              |r| == |CollegeMatches(s, college)| &&
              forall k :: 0 <= k < |r| ==> r[k].district == CleanText(CollegeMatches(s, college)[k].district)
  {
    var ms := CollegeMatches(s, college);
    if ms == [] then [FinalOf(s, "")] else Map(ms, WithDistrictOf(s))
  }

  /** Joining ranked row `s` with one college row, as a value. */
  function WithDistrictOf(s: Scored): CollegeRow -> FinalRow
  {
    (c: CollegeRow) => FinalOf(s, CleanText(c.district))
  }

  /** `FinalRows` against a fixed college table, as a value. */
  function FinalRowsWith(college: Option<seq<CollegeRow>>): Scored -> seq<FinalRow>
  {
    s => FinalRows(s, college)
  }

  /** `_finalize_table`: the ranked rows merged with the college table,
      then `head(10)`. Every ranked row gives at least one row, so the
      table has ten rows, or all the merged rows when there are fewer. */
  function Finalize(rows: seq<Scored>, college: Option<seq<CollegeRow>>): (r: seq<FinalRow>)
    ensures |r| <= TopN
    ensures |r| >= if |rows| < TopN then |rows| else TopN
  {
    forall s ensures |FinalRowsWith(college)(s)| >= 1 {
    }
    ConcatMapLength(rows, FinalRowsWith(college));
    Take(ConcatMap(rows, FinalRowsWith(college)), TopN)
  }

  /** A final row's district is '' or the cleaned district of a row of
      the college table with the final row's institute. */
  predicate DistrictFromCollege(f: FinalRow, college: Option<seq<CollegeRow>>)
  {
    f.district == "" ||
    (college.Some? && exists c :: c in college.value && CleanText(c.institute) == f.institute
                                   && CleanText(c.district) == f.district)
  }

  /** Each row the merge makes of a ranked row takes its district from the
      college table. */
  lemma FinalRowsDistrict(s: Scored, college: Option<seq<CollegeRow>>, m: nat)
    requires m < |FinalRows(s, college)|
    ensures DistrictFromCollege(FinalRows(s, college)[m], college)
  {
    var ms := CollegeMatches(s, college);
    if ms != [] {
      var c := ms[m];
      assert c in college.value by {
        FilterIn(college.value, SameInstitute(s.pred.institute));
      }
    }
  }

  /** Every final row is a ranked row with a district taken from the
      college table. */
  lemma FinalizeFrom(rows: seq<Scored>, college: Option<seq<CollegeRow>>, k: nat)
    requires k < |Finalize(rows, college)|
    ensures exists i :: 0 <= i < |rows| && Finalize(rows, college)[k] == FinalOf(rows[i], Finalize(rows, college)[k].district)
    ensures DistrictFromCollege(Finalize(rows, college)[k], college)
  {
    var all := ConcatMap(rows, FinalRowsWith(college));
    assert Finalize(rows, college)[k] == all[k];
    ConcatMapFrom(rows, FinalRowsWith(college), k);
    var i, m :| 0 <= i < |rows| && 0 <= m < |FinalRowsWith(college)(rows[i])| &&
                all[k] == FinalRowsWith(college)(rows[i])[m];
    assert all[k] == FinalRows(rows[i], college)[m];
    FinalRowsDistrict(rows[i], college, m);
  }

  /** With at most one college row per institute, the merge adds no row:
      the table is the first ten ranked rows, in order. */
  lemma FinalizeOneToOne(rows: seq<Scored>, college: Option<seq<CollegeRow>>)
    requires forall i :: 0 <= i < |rows| ==> |CollegeMatches(rows[i], college)| <= 1
    ensures |Finalize(rows, college)| == if |rows| < TopN then |rows| else TopN
    ensures forall i :: 0 <= i < |Finalize(rows, college)| ==>
              Finalize(rows, college)[i] == FinalOf(rows[i], Finalize(rows, college)[i].district)
  {
    forall i | 0 <= i < |rows| ensures |FinalRowsWith(college)(rows[i])| == 1 {
    }
    ConcatMapSingletons(rows, FinalRowsWith(college));
  }

  /** A ranked row whose institute has several college rows appears once
      per college row: the first ranked row fills the top of the table
      with one row per district listed for its institute. */
  lemma FinalizeRepeatsInstitute(rows: seq<Scored>, college: Option<seq<CollegeRow>>)
    requires rows != []
    ensures var ms := CollegeMatches(rows[0], college);
            && |Finalize(rows, college)| >= (if |ms| < TopN then |ms| else TopN)
            && forall k :: 0 <= k < |ms| && k < TopN ==>
                 Finalize(rows, college)[k] == FinalOf(rows[0], CleanText(ms[k].district))
  {
    var ms := CollegeMatches(rows[0], college);
    var head := FinalRows(rows[0], college);
    var all := ConcatMap(rows, FinalRowsWith(college));
    ConcatMapHead(rows, FinalRowsWith(college));
    assert head <= all;
    var r := Finalize(rows, college);
    assert r == Take(all, TopN);
    forall k | 0 <= k < |ms| && k < TopN
      ensures r[k] == FinalOf(rows[0], CleanText(ms[k].district))
    {
      assert r[k] == all[k] == head[k];
    }
  }

  // ---------------------------------------------------------------------
  // Boosting and the final order
  // ---------------------------------------------------------------------

  /** `.astype(str).str.strip().str.lower().replace('nan', '')` on a text
      column of the final table. */
  function Recleaned(s: string): string
  {
    CleanText(Val(s))
  }

  /** A final row as the boost sees it. */
  function CandidateOf(f: FinalRow): Boost.Candidate
  {
    Boost.Candidate(Recleaned(f.institute), Recleaned(f.program), Recleaned(f.stream),
                    Recleaned(f.quota), Recleaned(f.category), Recleaned(f.district))
  }

  function Candidates(table: seq<FinalRow>): (r: seq<Boost.Candidate>)
    ensures |r| == |table|
  {
    seq(|table|, i requires 0 <= i < |table| => CandidateOf(table[i]))
  }

  /** The key a final row looks its boost up under: its own, not recleaned,
      institute and program. */
  function LookupKey(f: FinalRow): Boost.Key
  {
    (f.institute, f.program)
  }

  /** The user's filters as the boost reads them: cleaned, with the
      category as typed (no tuition-fee-waiver default). */
  function BoostFilters(program: Option<string>, stream: Option<string>, quota: Option<string>,
                        category: Option<string>, location: Option<string>): Boost.UserFilters
  {
    Boost.UserFilters(CleanUserInput(program), CleanUserInput(stream), CleanUserInput(quota),
                      CleanUserInput(category), CleanUserInput(location))
  }

  /** The boost column of the final table. */
  function BoostColumn(rules: seq<Boost.RuleRow>, table: seq<FinalRow>, q: Boost.UserFilters): (r: seq<real>)
    ensures |r| == |table|
  {
    seq(|table|, i requires 0 <= i < |table| => Boost.BoostFor(rules, Candidates(table), q, LookupKey(table[i])))
  }

  /** The boost column as `boosts.get(key, 0.0)` fills it. */
  function LookupColumn(boosts: map<Boost.Key, real>, table: seq<FinalRow>): (r: seq<real>)
    ensures |r| == |table|
  {
    seq(|table|, i requires 0 <= i < |table| => Boost.Lookup(boosts, LookupKey(table[i])))
  }

  lemma LookupColumnIsBoostColumn(boosts: map<Boost.Key, real>, rules: seq<Boost.RuleRow>,
                                  table: seq<FinalRow>, q: Boost.UserFilters)
    requires forall k :: Boost.Lookup(boosts, k) == Boost.BoostFor(rules, Candidates(table), q, k)
    ensures LookupColumn(boosts, table) == BoostColumn(rules, table, q)
  {
    var a := LookupColumn(boosts, table);
    var b := BoostColumn(rules, table, q);
    forall i | 0 <= i < |table| ensures a[i] == b[i] {
      assert a[i] == Boost.Lookup(boosts, LookupKey(table[i]));
    }
  }

  /** A row already cleaned (as the predictor's rows are) finds the boost of
      its own candidate: the lookup key is the candidate's key. */
  lemma CleanRowFindsItsBoost(f: FinalRow, a: Cell, b: Cell)
    requires f.institute == CleanText(a) && f.program == CleanText(b)
    ensures LookupKey(f) == Boost.KeyOf(CandidateOf(f))
  {
    CleanTextIdempotent(a);
    CleanTextIdempotent(b);
  }

  /** The tree's probability column. */
  function ProbColumn(table: seq<FinalRow>, prob: FinalRow -> real): (r: seq<real>)
    ensures |r| == |table|
  {
    seq(|table|, i requires 0 <= i < |table| => prob(table[i]))
  }

  /** A final row with its sort keys. */
  datatype Ranked = Ranked(row: FinalRow, boost: real, prob: real)

  function RankedRows(table: seq<FinalRow>, boosts: seq<real>, probs: seq<real>): (r: seq<Ranked>)
    requires |boosts| == |table| && |probs| == |table|
    ensures |r| == |table|
  {
    seq(|table|, i requires 0 <= i < |table| => Ranked(table[i], boosts[i], probs[i]))
  }

  function RowsOf(s: seq<Ranked>): (r: seq<FinalRow>)
    ensures |r| == |s|
  {
    seq(|s|, i requires 0 <= i < |s| => s[i].row)
  }

  /** Which ranking `_evaluate_and_train_ml` chose. */
  datatype Model = Heuristic | DecisionTree

  /** How the evaluation ended: no grouped history, no scikit-learn, a
      failed training, or two accuracies to compare. */
  datatype Evaluation =
    | NoGroupedData
    | NoLibrary(heuristicAccuracy: real)
    | TrainingFailed(heuristicAccuracy: real)
    | Trained(heuristicAccuracy: real, treeAccuracy: real)

  /** The comparator: the tree only when it was trained and is strictly
      more accurate than the heuristic. */
  function ChooseModel(e: Evaluation): (m: Model)
    ensures m == DecisionTree <==> e.Trained? && e.treeAccuracy > e.heuristicAccuracy
  {
    match e
    case Trained(h, t) => if t > h then DecisionTree else Heuristic
    case _ => Heuristic
  }

  /** Boost descending, then closing rank ascending. */
  predicate HeuristicFirst(a: Ranked, b: Ranked)
  {
    a.boost > b.boost || (a.boost == b.boost && a.row.closing <= b.row.closing)
  }

  /** Boost descending, then the tree's probability descending, then
      closing rank ascending. */
  predicate TreeFirst(a: Ranked, b: Ranked)
  {
    a.boost > b.boost
    || (a.boost == b.boost && (a.prob > b.prob || (a.prob == b.prob && a.row.closing <= b.row.closing)))
  }

  function OrderOf(m: Model): (Ranked, Ranked) -> bool
  {
    match m
    case Heuristic => HeuristicFirst
    case DecisionTree => TreeFirst
  }

  lemma OrdersTotalPreorder(m: Model)
    ensures TotalPreorder(OrderOf(m))
  {
  }

  /** The answer's order: the final table sorted by the chosen model's keys
      (a stable multi-column sort), then `head(10)`. */
  function FinalOrder(table: seq<FinalRow>, boosts: seq<real>, probs: seq<real>, m: Model): seq<FinalRow>
    requires |boosts| == |table| && |probs| == |table|
  {
    Take(RowsOf(SortBy(RankedRows(table, boosts, probs), OrderOf(m))), TopN)
  }

  lemma RowsOfAppend(a: seq<Ranked>, b: seq<Ranked>)
    ensures RowsOf(a + b) == RowsOf(a) + RowsOf(b)
  {
    assert forall i :: 0 <= i < |a + b| ==> RowsOf(a + b)[i] == (RowsOf(a) + RowsOf(b))[i];
  }

  lemma MultisetCancel<T>(a: multiset<T>, b: multiset<T>, x: T)
    requires a + multiset{x} == b + multiset{x}
    ensures a == b
  {
    assert a == (a + multiset{x}) - multiset{x};
    assert b == (b + multiset{x}) - multiset{x};
  }

  /** Taking out the element at `j`. */
  lemma RemoveAt(b: seq<Ranked>, j: int)
    requires 0 <= j < |b|
    ensures multiset(b) == multiset(b[..j] + b[j + 1..]) + multiset{b[j]}
  {
    assert b == b[..j] + [b[j]] + b[j + 1..];
  }

  /** Taking out the element at `j` takes out its row. */
  lemma RemoveRowAt(b: seq<Ranked>, j: int)
    requires 0 <= j < |b|
    ensures multiset(RowsOf(b)) == multiset(RowsOf(b[..j] + b[j + 1..])) + multiset{b[j].row}
  {
    var left, right := b[..j], b[j + 1..];
    assert b == left + [b[j]] + right;
    RowsOfAppend(left + [b[j]], right);
    RowsOfAppend(left, [b[j]]);
    RowsOfAppend(left, right);
    assert RowsOf([b[j]]) == [b[j].row];
  }

  /** Rows of a rearrangement are a rearrangement of the rows. */
  lemma {:induction false} RowsOfPermutes(a: seq<Ranked>, b: seq<Ranked>)
    requires multiset(a) == multiset(b)
    ensures multiset(RowsOf(a)) == multiset(RowsOf(b))
  {
    if a != [] {
      var x := a[|a| - 1];
      var init := a[..|a| - 1];
      assert a == init + [x];
      RowsOfAppend(init, [x]);
      assert RowsOf([x]) == [x.row];
      assert x in multiset(b);
      var j :| 0 <= j < |b| && b[j] == x;
      var rest := b[..j] + b[j + 1..];
      RemoveAt(b, j);
      RemoveRowAt(b, j);
      MultisetCancel(multiset(init), multiset(rest), x);
      RowsOfPermutes(init, rest);
    } else {
      assert b == [];
    }
  }

  /** Boosting only reorders: on a table of at most ten rows (as
      `_finalize_table` returns) the answer holds exactly its rows, sorted
      by the chosen model's keys. */
  lemma FinalOrderPermutes(table: seq<FinalRow>, boosts: seq<real>, probs: seq<real>, m: Model)
    requires |boosts| == |table| && |probs| == |table| && |table| <= TopN
    ensures multiset(FinalOrder(table, boosts, probs, m)) == multiset(table)
    ensures var s := SortBy(RankedRows(table, boosts, probs), OrderOf(m));
            SortedBy(s, OrderOf(m)) && FinalOrder(table, boosts, probs, m) == RowsOf(s)
  {
    var ranked := RankedRows(table, boosts, probs);
    var s := SortBy(ranked, OrderOf(m));
    SortByPermutes(ranked, OrderOf(m));
    OrdersTotalPreorder(m);
    SortBySorted(ranked, OrderOf(m));
    RowsOfPermutes(s, ranked);
    assert RowsOf(ranked) == table;
  }

  // ---------------------------------------------------------------------
  // recommend
  // ---------------------------------------------------------------------

  /** The answer of `recommend`: three errors (with no data), the warning
      that the quality filter removed everything (with empty data),
      success with the ranked colleges, or the `KeyError` the merge on
      (Institute, Program) raises when the quality table has no `Program`
      column, which `recommend` does not catch. */
  datatype Outcome =
    | NoHistory
    | InvalidRank
    | NoneReachable(rank: real)
    | FilteredOut
    | Success(data: seq<FinalRow>)
    | QualityKeyError

  function Status(o: Outcome): string
  {
    match o
    case Success(_) => "success"
    case FilteredOut => "warning"
    case QualityKeyError => "raised"
    case _ => "error"
  }

  /** The `data` entry: absent on errors. */
  function Data(o: Outcome): Option<seq<FinalRow>>
  {
    match o
    case Success(d) => Some(d)
    case FilteredOut => Some([])
    case _ => None
  }

  /** A returned error carries no data, and only an error does; a raised
      exception returns nothing at all. */
  lemma ErrorsCarryNoData(o: Outcome)
    ensures Data(o).None? <==> Status(o) == "error" || Status(o) == "raised"
    ensures o.FilteredOut? ==> Data(o) == Some([])
  {
  }

  /** The inputs `recommend` needs beyond the predictions. */
  datatype Context = Context(quality: QualityTable, college: Option<seq<CollegeRow>>,
                             rules: seq<Boost.RuleRow>, evaluation: Evaluation)

  /** The quality filter runs only when the user asked for a threshold. */
  function Kept(scored: seq<Scored>, minCtc: real, minPlacements: real): seq<Scored>
  {
    if minCtc > 0.0 || minPlacements > 0.0 then MetricsFilter(scored, minCtc, minPlacements) else scored
  }

  /** Everything after the threshold: the quality merge, the optional
      quality filter, the final table, boosting and the final order. */
  function Ranking(above: seq<Prediction>, minCtc: real, minPlacements: real, ctx: Context,
                   q: Boost.UserFilters, prob: FinalRow -> real): Outcome
  {
    match ctx.quality
    case ReviewsOnly => QualityKeyError
    case ByProgram(quality) =>
      var kept := Kept(WithQuality(above, quality), minCtc, minPlacements);
      if kept == [] then FilteredOut
      else
        var table := Finalize(kept, ctx.college);
        Success(FinalOrder(table, BoostColumn(ctx.rules, table, q), ProbColumn(table, prob), ChooseModel(ctx.evaluation)))
  }

  /** `recommend` on the predictor's rows `preds` and the parsed rank
      (`None` when `float(user_rank)` fails). */
  function Recommendation(preds: seq<Prediction>, rank: Option<real>, minCtc: real, minPlacements: real,
                     ctx: Context, q: Boost.UserFilters, prob: FinalRow -> real): Outcome
  {
    if preds == [] then NoHistory
    else
      match rank
      case None => InvalidRank
      case Some(r) =>
        var above := AboveRank(preds, r);
        if above == [] then NoneReachable(r)
        else Ranking(above, minCtc, minPlacements, ctx, q, prob)
  }

  /** The status is settled in order: no predictions is an error whatever
      the rank; then an unparsable rank; then no prediction reaching the
      rank; only then does a quality table without a `Program` column
      make the merge raise. */
  lemma StatusOrder(preds: seq<Prediction>, rank: Option<real>, minCtc: real, minPlacements: real,
                    ctx: Context, q: Boost.UserFilters, prob: FinalRow -> real)
    ensures preds == [] ==> Recommendation(preds, rank, minCtc, minPlacements, ctx, q, prob) == NoHistory
    ensures preds != [] && rank.None? ==> Recommendation(preds, rank, minCtc, minPlacements, ctx, q, prob) == InvalidRank
    ensures preds != [] && rank.Some? ==>
              (Recommendation(preds, rank, minCtc, minPlacements, ctx, q, prob) == NoneReachable(rank.value) <==>
               forall i :: 0 <= i < |preds| ==> !Reachable(rank.value, preds[i]))
    ensures (Recommendation(preds, rank, minCtc, minPlacements, ctx, q, prob) == QualityKeyError <==>
             preds != [] && rank.Some? && ctx.quality.ReviewsOnly? &&
             exists i :: 0 <= i < |preds| && Reachable(rank.value, preds[i]))
  {
    if preds != [] && rank.Some? {
      AboveRankSpec(preds, rank.value);
    }
  }

  /** The warning comes only from a quality threshold the user asked for. */
  lemma WarningNeedsThreshold(preds: seq<Prediction>, rank: Option<real>, minCtc: real, minPlacements: real,
                              ctx: Context, q: Boost.UserFilters, prob: FinalRow -> real)
    requires Recommendation(preds, rank, minCtc, minPlacements, ctx, q, prob) == FilteredOut
    ensures minCtc > 0.0 || minPlacements > 0.0
  {
    var above := AboveRank(preds, rank.value);
    assert |WithQuality(above, ctx.quality.rows)| == |above|;
  }

  /** Rows that reach the rank still reach it after the quality filter. */
  lemma KeptReachable(above: seq<Prediction>, r: real, minCtc: real, minPlacements: real,
                      quality: map<Boost.Key, QualityRow>)
    requires forall i :: 0 <= i < |above| ==> Reachable(r, above[i])
    ensures var kept := Kept(WithQuality(above, quality), minCtc, minPlacements);
            forall i :: 0 <= i < |kept| ==> Fill(kept[i].pred.predicted) >= r
  {
    var scored := WithQuality(above, quality);
    var kept := Kept(scored, minCtc, minPlacements);
    if minCtc > 0.0 || minPlacements > 0.0 {
      MetricsFilterRows(scored, minCtc, minPlacements);
    }
    forall i | 0 <= i < |kept| ensures Fill(kept[i].pred.predicted) >= r {
      var j :| 0 <= j < |scored| && scored[j] == kept[i];
      assert Reachable(r, above[j]);
    }
  }

  /** Reordering keeps every row and its closing rank. */
  lemma FinalOrderKeepsBound(table: seq<FinalRow>, boosts: seq<real>, probs: seq<real>, m: Model, r: real)
    requires |boosts| == |table| && |probs| == |table| && |table| <= TopN
    requires forall i :: 0 <= i < |table| ==> table[i].closing >= r
    ensures |FinalOrder(table, boosts, probs, m)| == |table|
    ensures forall i :: 0 <= i < |FinalOrder(table, boosts, probs, m)| ==> FinalOrder(table, boosts, probs, m)[i].closing >= r
  {
    FinalOrderPermutes(table, boosts, probs, m);
    var d := FinalOrder(table, boosts, probs, m);
    forall i | 0 <= i < |d| ensures d[i].closing >= r {
      assert d[i] in multiset(table);
    }
    assert |multiset(d)| == |table|;
  }

  /** After the threshold, a success holds one to ten colleges, each
      reaching the rank. */
  lemma RankingSuccess(above: seq<Prediction>, r: real, minCtc: real, minPlacements: real,
                       ctx: Context, q: Boost.UserFilters, prob: FinalRow -> real)
    requires forall i :: 0 <= i < |above| ==> Reachable(r, above[i])
    requires Ranking(above, minCtc, minPlacements, ctx, q, prob).Success?
    ensures var d := Ranking(above, minCtc, minPlacements, ctx, q, prob).data;
            1 <= |d| <= TopN && forall i :: 0 <= i < |d| ==> d[i].closing >= r
  {
    KeptReachable(above, r, minCtc, minPlacements, ctx.quality.rows);
    var kept := Kept(WithQuality(above, ctx.quality.rows), minCtc, minPlacements);
    var table := Finalize(kept, ctx.college);
    forall k | 0 <= k < |table| ensures table[k].closing >= r {
      FinalizeFrom(kept, ctx.college, k);
    }
    FinalOrderKeepsBound(table, BoostColumn(ctx.rules, table, q), ProbColumn(table, prob), ChooseModel(ctx.evaluation), r);
  }

  /** A success holds one to ten colleges, each with a predicted closing
      rank at least the user's rank. */
  lemma SuccessSpec(preds: seq<Prediction>, rank: Option<real>, minCtc: real, minPlacements: real,
                    ctx: Context, q: Boost.UserFilters, prob: FinalRow -> real)
    requires Recommendation(preds, rank, minCtc, minPlacements, ctx, q, prob).Success?
    ensures var d := Recommendation(preds, rank, minCtc, minPlacements, ctx, q, prob).data;
            1 <= |d| <= TopN && forall i :: 0 <= i < |d| ==> d[i].closing >= rank.value
  {
    var above := AboveRank(preds, rank.value);
    AboveRankSpec(preds, rank.value);
    RankingSuccess(above, rank.value, minCtc, minPlacements, ctx, q, prob);
  }

  /** `recommend` after the predictor. */
  method Answer(preds: seq<Prediction>, rank: Option<real>, minCtc: real, minPlacements: real,
                ctx: Context, q: Boost.UserFilters, prob: FinalRow -> real)
    returns (o: Outcome)
    ensures o == Recommendation(preds, rank, minCtc, minPlacements, ctx, q, prob)
  {
    if preds == [] {
      return NoHistory;
    }
    if rank.None? {
      return InvalidRank;
    }
    var r := rank.value;
    var above := AboveRank(preds, r);
    if above == [] {
      return NoneReachable(r);
    }
    o := RankCandidates(above, minCtc, minPlacements, ctx, q, prob);
  }

  /** Quality scores, the optional quality filter, the final table, the
      boost loop and the final sort. */
  method RankCandidates(above: seq<Prediction>, minCtc: real, minPlacements: real,
                        ctx: Context, q: Boost.UserFilters, prob: FinalRow -> real)
    returns (o: Outcome)
    ensures o == Ranking(above, minCtc, minPlacements, ctx, q, prob)
  {
    if ctx.quality.ReviewsOnly? {
      return QualityKeyError;
    }
    var kept := Kept(WithQuality(above, ctx.quality.rows), minCtc, minPlacements);
    if kept == [] {
      return FilteredOut;
    }
    var table := Finalize(kept, ctx.college);
    var boosts := Boost.ComputeBoosts(ctx.rules, Candidates(table), q);
    var column := LookupColumn(boosts, table);
    LookupColumnIsBoostColumn(boosts, ctx.rules, table, q);
    var probs := ProbColumn(table, prob);
    o := Success(FinalOrder(table, column, probs, ChooseModel(ctx.evaluation)));
  }

  // ---------------------------------------------------------------------
  // The recommender object
  // ---------------------------------------------------------------------

  /** The stored rule rows of mined rules. */
  function RuleRows(rules: seq<RuleMiner.Rule>): (r: seq<Boost.RuleRow>)
    ensures |r| == |rules|
  {
    seq(|rules|, i requires 0 <= i < |rules| => Boost.RowOf(rules[i]))
  }

  /** The rules table `_ensure_rules` settles on: the saved rows when they
      can be read, otherwise the rows of the rules mined from `merged`. */
  function RulesTable(saved: Option<seq<Boost.RuleRow>>, merged: seq<MergedRow>): seq<Boost.RuleRow>
  {
    match saved
    case Some(rs) => rs
    case None => RuleRows(RuleMiner.MinedRules(merged, RuleMiner.MaxItemsetSize))
  }

  class CollegeRecommender {
    var masterRank: seq<RankRow>
    var merged: seq<MergedRow>
    var quality: QualityTable
    var college: Option<seq<CollegeRow>>
    var rules: seq<Boost.RuleRow>

    /** `__init__`: the master rank table and its merge with the colleges'
        districts, the college table kept for the final merge
        (`full_college_df`), the quality aggregates, then the rules (saved
        ones when they can be read, otherwise mined). */
    constructor (tables: seq<Table>, college: Option<seq<CollegeRow>>, parse: string -> Option<real>,
                 quality: QualityTable,
                 saved: Option<seq<Boost.RuleRow>>)
      ensures masterRank == MasterRank(tables, parse)
      ensures merged == Merge(masterRank, college)
      ensures this.quality == quality && this.college == college
      ensures rules == RulesTable(saved, merged)
    {
      this.quality := quality;
      this.college := college;
      new;
      PrepareMasterRank(tables, college, parse);
      EnsureRules(saved);
    }

    /** `_prepare_master_rank_df`. */
    method PrepareMasterRank(tables: seq<Table>, college: Option<seq<CollegeRow>>, parse: string -> Option<real>)
      modifies this`masterRank, this`merged
      ensures masterRank == MasterRank(tables, parse)
      ensures merged == Merge(masterRank, college)
    {
      masterRank := MasterRank(tables, parse);
      merged := Merge(masterRank, college);
    }

    /** `_ensure_rules`: the saved rules when readable, otherwise the rules
        mined from the merged table. */
    method EnsureRules(saved: Option<seq<Boost.RuleRow>>)
      modifies this`rules
      ensures rules == RulesTable(saved, merged)
    {
      match saved {
        case Some(rs) =>
          rules := rs;
        case None =>
          var mined := RuleMiner.GenerateRules(merged, RuleMiner.MaxItemsetSize);
          rules := RuleRows(mined);
      }
    }

    /** `recommend`: predict, then settle the status and rank the answer.
        `prob` is the trained tree's probability for a row. */
    method Recommend(rank: Option<real>, program: Option<string>, stream: Option<string>,
                     quota: Option<string>, category: Option<string>, location: Option<string>,
                     minCtc: real, minPlacements: real, target: int,
                     evaluation: Evaluation, prob: FinalRow -> real)
      returns (o: Outcome)
      ensures o == Recommendation(
                     PredictSpec(merged, UserQuery(program, stream, quota, category, location), target),
                     rank, minCtc, minPlacements, Context(quality, college, rules, evaluation),
                     BoostFilters(program, stream, quota, category, location), prob)
    {
      var preds := PredictTopColleges(merged, program, stream, quota, category, location, target);
      o := Answer(preds, rank, minCtc, minPlacements, Context(quality, college, rules, evaluation),
                  BoostFilters(program, stream, quota, category, location), prob);
    }
  }
}
