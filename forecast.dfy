/** The second half of the rank-only predictor: keeping the latest round
    per year, the fast path for a target year already in the data, and the
    forecast of each group's closing rank (backend/recommendation.py,
    `_predict_top_colleges_rank_only`). */
module Forecast {
  import opened Seqs
  import opened Text
  import opened Normalize
  import opened Filters

  /** A row of the predictor's result. `predicted` is the forecast closing
      rank, or on the fast path the closing rank as recorded (possibly
      null). */
  datatype Prediction = Prediction(
    institute: string, program: string, stream: string, seatType: string,
    quota: string, category: string,
    opening: Option<real>, predicted: Option<real>)

  // ---------------------------------------------------------------------
  // Keeping the latest round per year
  // ---------------------------------------------------------------------

  /** `sort_values('Round', ascending=False)`: rounds are text, so they
      compare in descending code-point order; missing rounds go last. */
  predicate RoundFirst(a: Rec, b: Rec)
  {
    match (a.round, b.round)
    case (Val(x), Val(y)) => LexLe(y, x)
    case (Val(_), _) => true
    case (_, Val(_)) => false
    case _ => true
  }

  lemma RoundFirstTotalPreorder()
    ensures TotalPreorder(RoundFirst)
  {
    forall a: Rec, b: Rec ensures RoundFirst(a, b) || RoundFirst(b, a) {
      if a.round.Val? && b.round.Val? {
        LexLeTotal(a.round.text, b.round.text);
      }
    }
    forall a: Rec, b: Rec, c: Rec | RoundFirst(a, b) && RoundFirst(b, c) ensures RoundFirst(a, c) {
      if a.round.Val? && b.round.Val? && c.round.Val? {
        LexLeTransitive(c.round.text, b.round.text, a.round.text);
      }
    }
  }

  /** The columns `drop_duplicates` compares. Program is not among them. */
  datatype DedupKey = DedupKey(year: Option<int>, institute: string, stream: string, quota: string, category: string)

  function DedupKeyOf(r: Rec): DedupKey
  {
    DedupKey(r.year, r.institute, r.stream, r.quota, r.category)
  }

  /** Some element of `s` has dedup key `k`. */
  predicate HasDedupKey(s: seq<Rec>, k: DedupKey)
  {
    exists i :: 0 <= i < |s| && DedupKeyOf(s[i]) == k
  }

  /** `sort_values('Round', ascending=False).drop_duplicates(subset=[Year,
      Institute, Stream, Quota, Category], keep='first')`. */
  function Dedup(rows: seq<Rec>): (r: seq<Rec>)
    ensures forall i :: 0 <= i < |r| ==> r[i] in rows
    ensures forall i, j :: 0 <= i < j < |r| ==> DedupKeyOf(r[i]) != DedupKeyOf(r[j])
    ensures forall x :: x in rows ==> HasDedupKey(r, DedupKeyOf(x))
  {
    var sorted := SortBy(rows, RoundFirst);
    SortByPermutes(rows, RoundFirst);
    assert forall x :: x in sorted <==> x in rows by {
      forall x ensures x in sorted <==> x in rows {
        assert x in multiset(sorted) <==> x in multiset(rows);
      }
    }
    forall x | x in sorted ensures HasDedupKey(KeepFirst(sorted, DedupKeyOf, {}), DedupKeyOf(x)) {
      KeepFirstCovers(sorted, DedupKeyOf, {}, x);
    }
    KeepFirst(sorted, DedupKeyOf, {})
  }

  /** The row kept for a key has a latest round of all rows with that key,
      in the text order of `Round`. */
  lemma DedupKeepsLatestRound(rows: seq<Rec>)
    ensures forall i, y :: 0 <= i < |Dedup(rows)| && y in rows && DedupKeyOf(y) == DedupKeyOf(Dedup(rows)[i])
                           ==> RoundFirst(Dedup(rows)[i], y)
  {
    RoundFirstTotalPreorder();
    var sorted := SortBy(rows, RoundFirst);
    SortBySorted(rows, RoundFirst);
    KeepFirstBest(sorted, DedupKeyOf, {}, RoundFirst);
    var d := Dedup(rows);
    assert d == KeepFirst(sorted, DedupKeyOf, {});
    forall i, y | 0 <= i < |d| && y in rows && DedupKeyOf(y) == DedupKeyOf(d[i])
      ensures RoundFirst(d[i], y)
    {
      SortedByRoundHas(rows, y);
      var j :| 0 <= j < |sorted| && sorted[j] == y;
    }
  }

  /** Sorting by round keeps every row. */
  lemma SortedByRoundHas(rows: seq<Rec>, y: Rec)
    requires y in rows
    ensures y in SortBy(rows, RoundFirst)
  {
    SortByPermutes(rows, RoundFirst);
    assert y in multiset(rows);
  }

  /** After deduplication a (Institute, Program, Stream, Quota, Category)
      group holds at most one row per year, so ordering a group by year has
      no ties. */
  lemma DedupYearsDistinctInGroup(rows: seq<Rec>)
    ensures forall i, j :: 0 <= i < j < |Dedup(rows)| && GroupKeyOf(Dedup(rows)[i]) == GroupKeyOf(Dedup(rows)[j])
                           ==> Dedup(rows)[i].year != Dedup(rows)[j].year
  {
  }

  // ---------------------------------------------------------------------
  // Fast path: the target year is already in the data
  // ---------------------------------------------------------------------

  /** Closing rank ascending, missing ranks last. */
  predicate ClosingFirst(a: Rec, b: Rec)
  {
    match (a.closing, b.closing)
    case (Some(x), Some(y)) => x <= y
    case (Some(_), None) => true
    case (None, Some(_)) => false
    case (None, None) => true
  }

  lemma ClosingFirstTotalPreorder()
    ensures TotalPreorder(ClosingFirst)
  {
  }

  /** `final_ranks[final_ranks['Year'] == target_year]` */
  function AtYear(rows: seq<Rec>, target: int): seq<Rec>
  {
    Filter(rows, InYear(target))
  }

  function InYear(target: int): Rec -> bool
  {
    (r: Rec) => r.year == Some(target)
  }

  /** A row as the fast path reports it: its own closing rank. */
  function Reported(r: Rec): (p: Prediction)
    ensures p.predicted == r.closing && p.opening == r.opening
  {
    Prediction(r.institute, r.program, r.stream, r.seatType, r.quota, r.category, r.opening, r.closing)
  }

  /** The fast path: the target year's rows by closing rank ascending. */
  function FastPath(rows: seq<Rec>, target: int): (r: seq<Rec>)
    ensures |r| == |AtYear(rows, target)|
  {
    SortBy(AtYear(rows, target), ClosingFirst)
  }

  /** The fast path returns exactly the target year's rows, ordered by
      closing rank with missing ranks last. */
  lemma FastPathSpec(rows: seq<Rec>, target: int)
    ensures SortedBy(FastPath(rows, target), ClosingFirst)
    ensures forall i :: 0 <= i < |FastPath(rows, target)| ==> FastPath(rows, target)[i].year == Some(target)
    ensures forall x :: x in rows && x.year == Some(target) ==> x in FastPath(rows, target)
  {
    ClosingFirstTotalPreorder();
    SortBySorted(AtYear(rows, target), ClosingFirst);
    SortByPermutes(AtYear(rows, target), ClosingFirst);
    FilterIn(rows, InYear(target));
    var f := FastPath(rows, target);
    forall i | 0 <= i < |f| ensures f[i].year == Some(target) {
      assert f[i] in multiset(AtYear(rows, target));
    }
    forall x | x in rows && x.year == Some(target) ensures x in f {
      assert x in multiset(AtYear(rows, target));
    }
  }

  // ---------------------------------------------------------------------
  // Forecast path
  // ---------------------------------------------------------------------

  /** The columns `groupby` groups on. */
  datatype GroupKey = GroupKey(institute: string, program: string, stream: string, quota: string, category: string)

  function GroupKeyOf(r: Rec): GroupKey
  {
    GroupKey(r.institute, r.program, r.stream, r.quota, r.category)
  }

  function KeyFields(k: GroupKey): seq<string>
  {
    [k.institute, k.program, k.stream, k.quota, k.category]
  }

  /** Tuple order on sequences of strings: the first differing component
      decides. */
  predicate FieldsLe(a: seq<string>, b: seq<string>)
  {
    if a == [] then true
    else if b == [] then false
    else if a[0] != b[0] then LexLe(a[0], b[0])
    else FieldsLe(a[1..], b[1..])
  }

  lemma {:induction false} FieldsLeProperties(a: seq<string>, b: seq<string>, c: seq<string>)
    ensures FieldsLe(a, b) || FieldsLe(b, a)
    ensures FieldsLe(a, b) && FieldsLe(b, c) ==> FieldsLe(a, c)
    ensures FieldsLe(a, b) && FieldsLe(b, a) ==> a == b
  {
    if a != [] && b != [] && c != [] {
      FieldsLeProperties(a[1..], b[1..], c[1..]);
      LexLeTotal(a[0], b[0]);
      if FieldsLe(a, b) && FieldsLe(b, c) {
        if a[0] != b[0] && b[0] != c[0] {
          LexLeTransitive(a[0], b[0], c[0]);
          if a[0] == c[0] { LexLeAntisymmetric(a[0], b[0]); }
        }
      }
      if FieldsLe(a, b) && FieldsLe(b, a) {
        if a[0] != b[0] { LexLeAntisymmetric(a[0], b[0]); }
        assert a == [a[0]] + a[1..] && b == [b[0]] + b[1..];
      }
    } else if a != [] && b != [] {
      LexLeTotal(a[0], b[0]);
      FieldsLeProperties(a[1..], b[1..], []);
      if FieldsLe(a, b) && FieldsLe(b, a) {
        if a[0] != b[0] { LexLeAntisymmetric(a[0], b[0]); }
        assert a == [a[0]] + a[1..] && b == [b[0]] + b[1..];
      }
    }
  }

  /** The order in which `groupby` visits its groups: ascending key tuples. */
  predicate GroupKeyLe(a: GroupKey, b: GroupKey)
  {
    FieldsLe(KeyFields(a), KeyFields(b))
  }

  lemma GroupKeyLeTotalOrder()
    ensures TotalOrder(GroupKeyLe)
  {
    forall a: GroupKey, b: GroupKey ensures GroupKeyLe(a, b) || GroupKeyLe(b, a) {
      FieldsLeProperties(KeyFields(a), KeyFields(b), []);
    }
    forall a: GroupKey, b: GroupKey, c: GroupKey | GroupKeyLe(a, b) && GroupKeyLe(b, c) ensures GroupKeyLe(a, c) {
      FieldsLeProperties(KeyFields(a), KeyFields(b), KeyFields(c));
    }
    forall a: GroupKey, b: GroupKey | GroupKeyLe(a, b) && GroupKeyLe(b, a) ensures a == b {
      FieldsLeProperties(KeyFields(a), KeyFields(b), []);
      assert KeyFields(a)[0] == KeyFields(b)[0] && KeyFields(a)[1] == KeyFields(b)[1];
      assert KeyFields(a)[2] == KeyFields(b)[2] && KeyFields(a)[3] == KeyFields(b)[3];
      assert KeyFields(a)[4] == KeyFields(b)[4];
    }
  }

  /** The groups' keys in the order `groupby` yields them. */
  function GroupKeys(rows: seq<Rec>): seq<GroupKey>
  {
    GroupKeyLeTotalOrder();
    SortSet(KeySet(rows), GroupKeyLe)
  }

  function KeySet(rows: seq<Rec>): set<GroupKey>
  {
    set i | 0 <= i < |rows| :: GroupKeyOf(rows[i])
  }

  /** The group keys are ascending and distinct. */
  lemma GroupKeysSorted(rows: seq<Rec>)
    ensures SortedBy(GroupKeys(rows), GroupKeyLe) && Distinct(GroupKeys(rows))
  {
    GroupKeyLeTotalOrder();
    SortSetSpec(KeySet(rows), GroupKeyLe);
  }

  /** Every row's key is a group key, and nothing else is. */
  lemma GroupKeysComplete(rows: seq<Rec>)
    ensures forall k :: k in GroupKeys(rows) <==> exists i :: 0 <= i < |rows| && GroupKeyOf(rows[i]) == k
  {
    GroupKeyLeTotalOrder();
    SortSetSpec(KeySet(rows), GroupKeyLe);
    assert forall k :: k in GroupKeys(rows) <==> k in KeySet(rows);
  }

  /** The rows of one group, in table order. */
  function GroupRows(rows: seq<Rec>, k: GroupKey): (g: seq<Rec>)
    ensures forall i :: 0 <= i < |g| ==> g[i] in rows && GroupKeyOf(g[i]) == k
  {
    FilterIn(rows, InGroup(k));
    Filter(rows, InGroup(k))
  }

  function InGroup(k: GroupKey): Rec -> bool
  {
    (r: Rec) => GroupKeyOf(r) == k
  }

  /** Year descending, missing years last. */
  predicate YearFirst(a: Rec, b: Rec)
  {
    match (a.year, b.year)
    case (Some(x), Some(y)) => x >= y
    case (Some(_), None) => true
    case (None, Some(_)) => false
    case (None, None) => true
  }

  lemma YearFirstTotalPreorder()
    ensures TotalPreorder(YearFirst)
  {
  }

  predicate HasClosing(r: Rec) { r.closing.Some? }

  /** `group.dropna(subset=['Closing Rank']).sort_values(by='Year',
      ascending=False)`: the group's rows with a closing rank, latest year
      first. */
  function LatestValid(group: seq<Rec>): (s: seq<Rec>)
    ensures |s| == |Filter(group, HasClosing)|
    ensures forall i :: 0 <= i < |s| ==> HasClosing(s[i])
  {
    var valid := Filter(group, HasClosing);
    var s := SortBy(valid, YearFirst);
    SortByPermutes(valid, YearFirst);
    assert forall i :: 0 <= i < |s| ==> HasClosing(s[i]) by {
      forall i | 0 <= i < |s| ensures HasClosing(s[i]) {
        assert s[i] in multiset(valid);
      }
    }
    s
  }

  /** The sorted valid rows are the group's rows with a closing rank, each
      exactly as often as the group holds it. */
  lemma LatestValidPermutes(group: seq<Rec>)
    ensures multiset(LatestValid(group)) == multiset(Filter(group, HasClosing))
  {
    SortByPermutes(Filter(group, HasClosing), YearFirst);
  }

  /** The closing ranks of the (at most two) latest rows that have one. */
  function Recent(group: seq<Rec>): (r: seq<real>)
    ensures |r| == if |Filter(group, HasClosing)| < 2 then |Filter(group, HasClosing)| else 2
  {
    var s := LatestValid(group);
    var top := Take(s, 2);
    seq(|top|, i requires 0 <= i < |top| => top[i].closing.value)
  }

  function MaxReal(a: real, b: real): real { if a >= b then a else b }

  /** One group's forecast: nothing when no row has a closing rank;
      otherwise the mean of the latest one or two closing ranks, floored at
      1, with Opening Rank and Seat Type from the group's latest row. */
  function GroupForecast(group: seq<Rec>, k: GroupKey): (p: Option<Prediction>)
    ensures p.Some? ==> p.value.predicted.Some? && p.value.predicted.value >= 1.0
    ensures p.Some? ==> KeyOfPrediction(p.value) == k
    ensures p.Some? ==> Recent(group) != [] && p.value.predicted == Some(MaxReal(1.0, Mean(Recent(group))))
  {
    var valid := Filter(group, HasClosing);
    if valid == [] then None
    else
      var latest := SortBy(group, YearFirst)[0];
      Some(Prediction(k.institute, k.program, k.stream, latest.seatType, k.quota, k.category,
                      latest.opening, Some(MaxReal(1.0, Mean(Recent(group))))))
  }

  /** A group is forecast exactly when one of its rows has a closing rank. */
  lemma GroupForecastPresent(group: seq<Rec>, k: GroupKey)
    ensures GroupForecast(group, k).Some? <==> exists i :: 0 <= i < |group| && HasClosing(group[i])
  {
    FilterEmpty(group, HasClosing);
  }

  /** Opening Rank and Seat Type of a forecast come from a row of the group
      that no other row precedes in year (rows without a year come last). */
  lemma GroupForecastLatestRow(group: seq<Rec>, k: GroupKey)
    ensures var p := GroupForecast(group, k);
            p.Some? ==> exists i :: 0 <= i < |group| && (forall j :: 0 <= j < |group| ==> YearFirst(group[i], group[j]))
                                    && p.value.opening == group[i].opening && p.value.seatType == group[i].seatType
  {
    var p := GroupForecast(group, k);
    if p.Some? {
      var s := SortBy(group, YearFirst);
      YearFirstTotalPreorder();
      SortBySorted(group, YearFirst);
      SortByPermutes(group, YearFirst);
      assert s[0] in multiset(group);
      var i :| 0 <= i < |group| && group[i] == s[0];
      forall j | 0 <= j < |group| ensures YearFirst(group[i], group[j]) {
        assert group[j] in multiset(s);
        var m :| 0 <= m < |s| && s[m] == group[j];
        if m > 0 {
          assert YearFirst(s[0], s[m]);
        }
      }
    }
  }

  /** The rows averaged are distinct rows of the group that have a closing
      rank: a row is taken twice only if the group holds it twice. */
  lemma RecentDistinctRows(group: seq<Rec>)
    ensures multiset(Take(LatestValid(group), 2)) <= multiset(Filter(group, HasClosing))
  {
    LatestValidPermutes(group);
    TakeSubMultiset(LatestValid(group), 2);
  }

  /** The ranks averaged are those of the latest rows that have one: no
      row left out has a later year, and every averaged rank is the closing
      rank of a row of the group. */
  lemma RecentAreLatest(group: seq<Rec>)
    ensures forall i, j :: 0 <= i < |Take(LatestValid(group), 2)| <= j < |LatestValid(group)|
                           ==> YearFirst(LatestValid(group)[i], LatestValid(group)[j])
    ensures forall i :: 0 <= i < |Recent(group)| ==>
              LatestValid(group)[i] in group && LatestValid(group)[i].closing == Some(Recent(group)[i])
  {
    YearFirstTotalPreorder();
    SortBySorted(Filter(group, HasClosing), YearFirst);
    SortByPermutes(Filter(group, HasClosing), YearFirst);
    var s := LatestValid(group);
    FilterIn(group, HasClosing);
    forall i | 0 <= i < |Recent(group)| ensures s[i] in group {
      assert s[i] in multiset(Filter(group, HasClosing));
    }
  }

  /** What one group adds to the result: its forecast, if any. */
  function ForecastStep(rows: seq<Rec>, k: GroupKey): seq<Prediction>
  {
    match GroupForecast(GroupRows(rows, k), k)
    case Some(p) => [p]
    case None => []
  }

  function StepOf(rows: seq<Rec>): GroupKey -> seq<Prediction>
  {
    (k: GroupKey) => ForecastStep(rows, k)
  }

  /** The forecasts of the groups `keys`, in that order. */
  function ForecastOver(rows: seq<Rec>, keys: seq<GroupKey>): seq<Prediction>
  {
    FlatMap(StepOf(rows), keys)
  }

  /** The forecast path over all groups. */
  function ForecastSpec(rows: seq<Rec>): seq<Prediction>
  {
    ForecastOver(rows, GroupKeys(rows))
  }

  /** The loop over `groupby`: appends each group's forecast, skipping
      groups without a valid closing rank. */
  method ForecastGroups(rows: seq<Rec>) returns (preds: seq<Prediction>)
    ensures preds == ForecastSpec(rows)
  {
    preds := ForecastKeys(rows, GroupKeys(rows));
  }

  /** The body of that loop, over the groups `keys` in order. */
  method ForecastKeys(rows: seq<Rec>, keys: seq<GroupKey>) returns (preds: seq<Prediction>)
    ensures preds == ForecastOver(rows, keys)
  {
    preds := [];
    var i := 0;
    while i < |keys|
      invariant 0 <= i <= |keys|
      invariant preds == ForecastOver(rows, keys[..i])
    {
      var k := keys[i];
      var p := GroupForecast(GroupRows(rows, k), k);
      ForecastOverSnoc(rows, keys, i, p);
      if p.Some? {
        preds := preds + [p.value];
      }
      i := i + 1;
    }
    assert keys[..|keys|] == keys;
  }

  /** One more group appends its forecast, if any. */
  lemma ForecastOverSnoc(rows: seq<Rec>, keys: seq<GroupKey>, i: int, p: Option<Prediction>)
    requires 0 <= i < |keys| && p == GroupForecast(GroupRows(rows, keys[i]), keys[i])
    ensures ForecastOver(rows, keys[..i + 1]) ==
            ForecastOver(rows, keys[..i]) + (if p.Some? then [p.value] else [])
  {
    FlatMapSnoc(StepOf(rows), keys, i);
  }

  function KeyOfPrediction(p: Prediction): GroupKey
  {
    GroupKey(p.institute, p.program, p.stream, p.quota, p.category)
  }

  /** Some row of group `k` has a closing rank. */
  predicate HasValidRow(rows: seq<Rec>, k: GroupKey)
  {
    exists i :: 0 <= i < |rows| && GroupKeyOf(rows[i]) == k && HasClosing(rows[i])
  }

  /** One group contributes at most one forecast, at least 1 and carrying
      the group's key, and contributes one exactly when a row of the group
      has a closing rank. */
  lemma ForecastStepSpec(rows: seq<Rec>, k: GroupKey)
    ensures |ForecastStep(rows, k)| <= 1
    ensures forall m :: 0 <= m < |ForecastStep(rows, k)| ==> ValidForecast(rows, ForecastStep(rows, k)[m])
    ensures forall m :: 0 <= m < |ForecastStep(rows, k)| ==> KeyOfPrediction(ForecastStep(rows, k)[m]) == k
    ensures ForecastStep(rows, k) != [] <==> HasValidRow(rows, k)
  {
    var g := GroupRows(rows, k);
    GroupForecastPresent(g, k);
    ValidRowInGroup(rows, k);
  }

  /** A group has a row with a closing rank exactly when some row of the
      group, as `GroupRows` selects it, has one. */
  lemma ValidRowInGroup(rows: seq<Rec>, k: GroupKey)
    ensures HasValidRow(rows, k) <==>
            exists i :: 0 <= i < |GroupRows(rows, k)| && HasClosing(GroupRows(rows, k)[i])
  {
    var g := GroupRows(rows, k);
    FilterIn(rows, InGroup(k));
    if HasValidRow(rows, k) {
      var i0 :| 0 <= i0 < |rows| && GroupKeyOf(rows[i0]) == k && HasClosing(rows[i0]);
      assert rows[i0] in g;
    }
    if exists i :: 0 <= i < |g| && HasClosing(g[i]) {
      var i0 :| 0 <= i0 < |g| && HasClosing(g[i0]);
      assert g[i0] in rows;
      var j0 :| 0 <= j0 < |rows| && rows[j0] == g[i0];
      assert HasValidRow(rows, k);
    }
  }

  /** A forecast is at least 1 and its group has a valid closing rank. */
  predicate ValidForecast(rows: seq<Rec>, p: Prediction)
  {
    p.predicted.Some? && p.predicted.value >= 1.0 && HasValidRow(rows, KeyOfPrediction(p))
  }

  /** Every forecast is at least 1, and its group has a row with a
      closing rank. */
  lemma ForecastsValid(rows: seq<Rec>)
    ensures forall i :: 0 <= i < |ForecastSpec(rows)| ==> ValidForecast(rows, ForecastSpec(rows)[i])
  {
    var keys := GroupKeys(rows);
    var f := StepOf(rows);
    forall j, m | 0 <= j < |keys| && 0 <= m < |f(keys[j])|
      ensures ValidForecast(rows, f(keys[j])[m])
    {
      ForecastStepSpec(rows, keys[j]);
    }
    FlatMapAll(f, keys, (p: Prediction) => ValidForecast(rows, p));
  }

  /** Every group that has a row with a closing rank is forecast. */
  lemma ForecastsCoverValidGroups(rows: seq<Rec>)
    ensures forall r :: r in rows && HasClosing(r) ==>
              exists i :: 0 <= i < |ForecastSpec(rows)| && KeyOfPrediction(ForecastSpec(rows)[i]) == GroupKeyOf(r)
  {
    forall r | r in rows && HasClosing(r)
      ensures exists i :: 0 <= i < |ForecastSpec(rows)| && KeyOfPrediction(ForecastSpec(rows)[i]) == GroupKeyOf(r)
    {
      ForecastCoversRow(rows, r);
    }
  }

  lemma ForecastCoversRow(rows: seq<Rec>, r: Rec)
    requires r in rows && HasClosing(r)
    ensures exists i :: 0 <= i < |ForecastSpec(rows)| && KeyOfPrediction(ForecastSpec(rows)[i]) == GroupKeyOf(r)
  {
    var keys := GroupKeys(rows);
    var k := GroupKeyOf(r);
    var j0 :| 0 <= j0 < |rows| && rows[j0] == r;
    assert HasValidRow(rows, k);
    RowKeyListed(rows, j0);
    var j :| 0 <= j < |keys| && keys[j] == k;
    ForecastOverCovers(rows, keys, j);
    assert ForecastSpec(rows) == ForecastOver(rows, keys);
  }

  /** Every row's key is among the group keys. */
  lemma RowKeyListed(rows: seq<Rec>, i: int)
    requires 0 <= i < |rows|
    ensures GroupKeyOf(rows[i]) in GroupKeys(rows)
  {
    GroupKeysComplete(rows);
  }

  /** A listed group with a row that has a closing rank is forecast. */
  lemma ForecastOverCovers(rows: seq<Rec>, keys: seq<GroupKey>, j: int)
    requires 0 <= j < |keys| && HasValidRow(rows, keys[j])
    ensures exists i :: 0 <= i < |ForecastOver(rows, keys)| && KeyOfPrediction(ForecastOver(rows, keys)[i]) == keys[j]
  {
    var f := StepOf(rows);
    var out := ForecastOver(rows, keys);
    ForecastStepSpec(rows, keys[j]);
    FlatMapCovers(f, keys, j, 0);
    var i :| 0 <= i < |out| && out[i] == f(keys[j])[0];
    assert KeyOfPrediction(out[i]) == keys[j];
  }

  /** Forecasts come in ascending order of their group key, one per group. */
  lemma ForecastsOrdered(rows: seq<Rec>)
    ensures forall i, j :: 0 <= i < j < |ForecastSpec(rows)| ==>
              GroupKeyLe(KeyOfPrediction(ForecastSpec(rows)[i]), KeyOfPrediction(ForecastSpec(rows)[j]))
              && KeyOfPrediction(ForecastSpec(rows)[i]) != KeyOfPrediction(ForecastSpec(rows)[j])
  {
    var keys := GroupKeys(rows);
    var f := StepOf(rows);
    GroupKeysSorted(rows);
    forall j | 0 <= j < |keys|
      ensures |f(keys[j])| <= 1
      ensures forall m :: 0 <= m < |f(keys[j])| ==> KeyOfPrediction(f(keys[j])[m]) == keys[j]
    {
      ForecastStepSpec(rows, keys[j]);
    }
    FlatMapOrdered(f, keys, KeyOfPrediction, GroupKeyLe);
  }

  // ---------------------------------------------------------------------
  // The predictor
  // ---------------------------------------------------------------------

  /** The working copy of `merged_df` with its key columns cleaned again. */
  function PrepareAll(merged: seq<MergedRow>): (rows: seq<Rec>)
    ensures |rows| == |merged|
  {
    seq(|merged|, i requires 0 <= i < |merged| => Prepare(merged[i]))
  }

  /** The fast path's result. */
  function FastReport(rows: seq<Rec>, target: int): seq<Prediction>
  {
    var fast := FastPath(rows, target);
    seq(|fast|, i requires 0 <= i < |fast| => Reported(fast[i]))
  }

  /** After deduplication: the fast path when the target year occurs,
      otherwise the forecast. */
  function RankedOutput(finalRanks: seq<Rec>, target: int): seq<Prediction>
  {
    if AtYear(finalRanks, target) != [] then FastReport(finalRanks, target)
    else ForecastSpec(finalRanks)
  }

  /** `_predict_top_colleges_rank_only` on the merged table: cascade, then
      deduplication, then the fast path or the forecast. */
  function PredictSpec(merged: seq<MergedRow>, q: Query, target: int): seq<Prediction>
  {
    var filtered := Cascade(PrepareAll(merged), q);
    if filtered == [] then [] else RankedOutput(Dedup(filtered), target)
  }

  method PredictTopColleges(merged: seq<MergedRow>, program: Option<string>, stream: Option<string>,
                            quota: Option<string>, category: Option<string>, district: Option<string>,
                            target: int)
    returns (preds: seq<Prediction>)
    ensures preds == PredictSpec(merged, UserQuery(program, stream, quota, category, district), target)
  {
    var q := UserQuery(program, stream, quota, category, district);
    var filtered := Cascade(PrepareAll(merged), q);
    if filtered == [] {
      return [];
    }
    var finalRanks := Dedup(filtered);
    if AtYear(finalRanks, target) != [] {
      preds := FastReport(finalRanks, target);
    } else {
      preds := ForecastGroups(finalRanks);
    }
  }

  /** After deduplication the result is empty exactly when the target
      year does not occur and no row has a closing rank. */
  lemma RankedOutputEmpty(d: seq<Rec>, target: int)
    ensures RankedOutput(d, target) == [] <==>
              AtYear(d, target) == [] && forall i :: 0 <= i < |d| ==> !HasClosing(d[i])
  {
    if AtYear(d, target) != [] {
      assert |FastPath(d, target)| == |AtYear(d, target)|;
    } else {
      ForecastsValid(d);
      ForecastsCoverValidGroups(d);
      if exists i :: 0 <= i < |d| && HasClosing(d[i]) {
        var i :| 0 <= i < |d| && HasClosing(d[i]);
        assert d[i] in d;
      }
      if ForecastSpec(d) != [] {
        var p := ForecastSpec(d)[0];
        assert HasValidRow(d, KeyOfPrediction(p));
      }
    }
  }

  /** The predictor returns nothing exactly when no row passes the program
      filter, or when the target year is absent and no deduplicated row has
      a closing rank. */
  lemma PredictEmpty(merged: seq<MergedRow>, q: Query, target: int)
    ensures PredictSpec(merged, q, target) == [] <==>
              NoProgramMatch(PrepareAll(merged), q.program)
              || (var d := Dedup(ApplyFilters(PrepareAll(merged), q));
                  AtYear(d, target) == [] && forall i :: 0 <= i < |d| ==> !HasClosing(d[i]))
  {
    var rows := PrepareAll(merged);
    CascadeIsFirstAttempt(rows, q);
    ApplyFiltersSpec(rows, q);
    var filtered := ApplyFilters(rows, q);
    if filtered != [] {
      RankedOutputEmpty(Dedup(filtered), target);
    }
  }

  /** A forecast is never below 1, but the fast path reports a recorded
      closing rank as it is: a target-year row with closing rank 0.5 comes
      back as 0.5. */
  lemma FastPathNotFloored(r: Rec, target: int)
    requires r.year == Some(target) && r.closing == Some(0.5)
    ensures Reported(FastPath([r], target)[0]).predicted == Some(0.5)
    ensures GroupForecast([r], GroupKeyOf(r)).value.predicted == Some(1.0)
  {
    assert AtYear([r], target) == [r];
    assert FastPath([r], target) == [r];
    assert Filter([r], HasClosing) == [r];
    assert LatestValid([r]) == [r];
    assert Recent([r]) == [0.5];
    assert Mean([0.5]) == 0.5 by { assert SumReal([0.5]) == SumReal([]) + 0.5; }
  }

  /** The mean of the two latest closing ranks: 100 (2024) and 120 (2023)
      forecast 110, whatever an older year says. */
  lemma ForecastOfTwoLatest(a: Rec, b: Rec, c: Rec)
    requires a.year == Some(2024) && a.closing == Some(100.0)
    requires b.year == Some(2023) && b.closing == Some(120.0)
    requires c.year == Some(2022) && c.closing.Some?
    ensures Recent([c, b, a]) == [100.0, 120.0]
    ensures GroupForecast([c, b, a], GroupKeyOf(a)).value.predicted == Some(110.0)
  {
    var g := [c, b, a];
    assert g[1..] == [b, a] && [b, a][1..] == [a] && [a][1..] == [];
    assert Filter([a], HasClosing) == [a];
    assert Filter([b, a], HasClosing) == [b, a];
    assert Filter(g, HasClosing) == g;
    assert SortBy([a], YearFirst) == [a];
    assert Insert(b, [a], YearFirst) == [a, b] by {
      assert Insert(b, [], YearFirst) == [b];
    }
    assert SortBy([b, a], YearFirst) == [a, b];
    assert Insert(c, [a, b], YearFirst) == [a, b, c] by {
      assert [a, b][1..] == [b] && [b][1..] == [];
      assert Insert(c, [], YearFirst) == [c];
      assert Insert(c, [b], YearFirst) == [b, c];
    }
    assert SortBy(g, YearFirst) == [a, b, c];
    assert LatestValid(g) == [a, b, c];
    assert Take([a, b, c], 2) == [a, b];
    assert Recent(g) == [100.0, 120.0];
    assert SumReal([100.0, 120.0]) == 220.0 by {
      assert [100.0, 120.0][..1] == [100.0] && [100.0][..0] == [];
    }
    assert SortBy(g, YearFirst)[0] == a;
  }
}
