/** The lenient filter chain of the rank-only predictor (`apply_filters`),
    the fallback cascade around it, the cleaning of user input and the
    tuition-fee-waiver default (backend/recommendation.py,
    `_clean_user_input` and `_predict_top_colleges_rank_only`). */
module Filters {
  import opened Seqs
  import opened Text
  import opened Normalize

  /** A row of the predictor's working copy of `merged_df`, after its key
      columns are cleaned once more. `Year`, `Round`, `Seat Type` and the
      ranks are carried as they are. */
  datatype Rec = Rec(
    year: Option<int>, round: Cell,
    institute: string, program: string, stream: string, seatType: string,
    quota: string, category: string, district: string,
    opening: Option<real>, closing: Option<real>)

  /** The second cleaning pass over a merged row: the same strip, lower-case
      and `'nan'` replacement, now also over `District`. */
  function Prepare(m: MergedRow): (r: Rec)
    ensures r.district == CleanText(m.district)
    ensures r.year == m.rank.year && r.round == m.rank.round
    ensures r.opening == m.rank.opening && r.closing == m.rank.closing
  {
    Rec(m.rank.year, m.rank.round,
        CleanText(Val(m.rank.institute)), CleanText(Val(m.rank.program)),
        CleanText(Val(m.rank.stream)), m.rank.seatType,
        CleanText(Val(m.rank.quota)), CleanText(Val(m.rank.category)),
        CleanText(m.district), m.rank.opening, m.rank.closing)
  }

  /** Rows of the master table were cleaned already, so the second pass
      keeps their key columns. */
  lemma PrepareKeepsCleanedRow(m: MergedRow, inst: Cell, prog: Cell, strm: Cell, qta: Cell, cat: Cell)
    requires m.rank.institute == CleanText(inst) && m.rank.program == CleanText(prog)
    requires m.rank.stream == CleanText(strm) && m.rank.quota == CleanText(qta)
    requires m.rank.category == CleanText(cat)
    ensures Prepare(m).institute == m.rank.institute && Prepare(m).program == m.rank.program
    ensures Prepare(m).stream == m.rank.stream && Prepare(m).quota == m.rank.quota
    ensures Prepare(m).category == m.rank.category
  {
    CleanTextIdempotent(inst);
    CleanTextIdempotent(prog);
    CleanTextIdempotent(strm);
    CleanTextIdempotent(qta);
    CleanTextIdempotent(cat);
  }

  /** `_clean_user_input`: strip and lower-case a string, anything else is
      the empty string. */
  function CleanUserInput(s: Option<string>): (r: string)
    ensures s.None? ==> r == ""
    ensures forall i :: 0 <= i < |r| ==> !IsUpper(r[i])
    ensures r == [] || (!IsSpace(r[0]) && !IsSpace(r[|r| - 1]))
  {
    match s
    case None => ""
    case Some(t) =>
      var u := Strip(t);
      LowerFacts(u);
      Lower(u)
  }

  /** User input is cleaned like a table column, except that the text
      `nan` is kept; so a value the user typed compares equal to the column
      value it names. */
  lemma CleanUserInputAgrees(s: string)
    ensures CleanUserInput(Some(s)) == CleanText(Val(s)) || CleanUserInput(Some(s)) == "nan"
    ensures CleanUserInput(Some(CleanUserInput(Some(s)))) == CleanUserInput(Some(s))
  {
    var u := CleanUserInput(Some(s));
    StripStripped(u);
    assert Lower(u) == u;
  }

  /** A string that is already lower case and has no surrounding
      whitespace is its own cleaned input (`nan` included). */
  lemma CleanUserInputFixesClean(s: string)
    requires forall i :: 0 <= i < |s| ==> !IsUpper(s[i])
    requires s == [] || (!IsSpace(s[0]) && !IsSpace(s[|s| - 1]))
    ensures CleanUserInput(Some(s)) == s
  {
    StripStripped(s);
    LowerNoUpper(s);
  }

  /** Inputs that differ in letter case and surrounding whitespace clean
      alike. */
  lemma CleanUserInputIgnoresCaseAndSpace(a: string, b: string)
    requires Lower(Strip(a)) == Lower(Strip(b))
    ensures CleanUserInput(Some(a)) == CleanUserInput(Some(b))
  {
  }

  /** A program containing `tfw` with no category asked for selects the
      tuition-fee-waiver category; a given category is never replaced. */
  function TfwCategory(program: string, category: string): (c: string)
    ensures category != "" ==> c == category
    ensures category == "" ==> (c == "tuition fee waiver" <==> Contains(program, "tfw"))
    ensures c == category || c == "tuition fee waiver"
  {
    if program != "" && Contains(program, "tfw") && category == "" then "tuition fee waiver" else category
  }

  /** The cleaned filter values the predictor works with. */
  datatype Query = Query(program: string, stream: string, quota: string, category: string, district: string)

  /** The user's filters, cleaned, with the tuition-fee-waiver default. */
  function UserQuery(program: Option<string>, stream: Option<string>, quota: Option<string>,
                     category: Option<string>, district: Option<string>): (q: Query)
    ensures q.program == CleanUserInput(program) && q.stream == CleanUserInput(stream)
    ensures q.quota == CleanUserInput(quota) && q.district == CleanUserInput(district)
    ensures q.category == TfwCategory(CleanUserInput(program), CleanUserInput(category))
  {
    var p := CleanUserInput(program);
    Query(p, CleanUserInput(stream), CleanUserInput(quota),
          TfwCategory(p, CleanUserInput(category)), CleanUserInput(district))
  }

  /** The columns a filter can test. */
  datatype Column = ProgramCol | StreamCol | QuotaCol | DistrictCol | CategoryCol

  function Get(r: Rec, c: Column): string
  {
    match c
    case ProgramCol => r.program
    case StreamCol => r.stream
    case QuotaCol => r.quota
    case DistrictCol => r.district
    case CategoryCol => r.category
  }

  /** `tmp[tmp[col] == v]` */
  function Exact(rows: seq<Rec>, c: Column, v: string): seq<Rec>
  {
    Filter(rows, (r: Rec) => Get(r, c) == v)
  }

  /** `tmp[tmp[col].str.contains(v)]` */
  function Substring(rows: seq<Rec>, c: Column, v: string): seq<Rec>
  {
    Filter(rows, (r: Rec) => Contains(Get(r, c), v))
  }

  /** Exact matches when there are any, otherwise substring matches: every
      row kept contains the value, and nothing is kept only when no row
      contains it. */
  function Lenient(rows: seq<Rec>, c: Column, v: string): (out: seq<Rec>)
    ensures forall i :: 0 <= i < |out| ==> out[i] in rows && Contains(Get(out[i], c), v)
    ensures out == [] <==> forall i :: 0 <= i < |rows| ==> !Contains(Get(rows[i], c), v)
  {
    var e := Exact(rows, c, v);
    FilterIn(rows, (r: Rec) => Get(r, c) == v);
    FilterIn(rows, (r: Rec) => Contains(Get(r, c), v));
    if e != [] then
      assert forall i :: 0 <= i < |e| ==> Get(e[i], c) == v && Contains(Get(e[i], c), v) by {
        ContainsSelf(v);
      }
      assert Contains(Get(e[0], c), v);
      e
    else
      FilterEmpty(rows, (r: Rec) => Contains(Get(r, c), v));
      Substring(rows, c, v)
  }

  /** An optional filter: skipped when its value is empty, and its result
      used only when it is not empty. */
  function Optional(rows: seq<Rec>, c: Column, v: string): (out: seq<Rec>)
    ensures forall i :: 0 <= i < |out| ==> out[i] in rows
    ensures out == [] <==> rows == []
  {
    if v == "" then rows
    else
      var t := Lenient(rows, c, v);
      if t != [] then t else rows
  }

  /** Some row holds exactly `v` in column `c`. */
  predicate AnyExact(rows: seq<Rec>, c: Column, v: string)
  {
    exists i :: 0 <= i < |rows| && Get(rows[i], c) == v
  }

  /** What `_lenient_match` keeps: a row of the input that holds `v`
      exactly when some row does, and otherwise one that contains it. */
  predicate LenientKeeps(rows: seq<Rec>, c: Column, v: string, x: Rec)
  {
    x in rows && if AnyExact(rows, c, v) then Get(x, c) == v else Contains(Get(x, c), v)
  }

  /** The lenient match keeps exactly the exact matches when there are
      any, and otherwise exactly the rows containing the value. */
  lemma LenientSpec(rows: seq<Rec>, c: Column, v: string)
    ensures forall x :: x in Lenient(rows, c, v) <==> LenientKeeps(rows, c, v, x)
  {
    FilterEmpty(rows, (r: Rec) => Get(r, c) == v);
    FilterIn(rows, (r: Rec) => Get(r, c) == v);
    FilterIn(rows, (r: Rec) => Contains(Get(r, c), v));
  }

  /** An optional filter keeps all rows when its value is empty or no row
      contains the value; otherwise it keeps what the lenient match keeps. */
  lemma OptionalSpec(rows: seq<Rec>, c: Column, v: string)
    ensures v == "" || (forall i :: 0 <= i < |rows| ==> !Contains(Get(rows[i], c), v)) ==>
              Optional(rows, c, v) == rows
    ensures v != "" && (exists i :: 0 <= i < |rows| && Contains(Get(rows[i], c), v)) ==>
              forall x :: x in Optional(rows, c, v) <==> LenientKeeps(rows, c, v, x)
  {
    if v != "" {
      LenientSpec(rows, c, v);
    }
  }

  /** The program filter keeps all rows when no program is given, and
      otherwise exactly what the lenient match on the program keeps, even
      when that is nothing. */
  lemma ProgramStepSpec(rows: seq<Rec>, program: string)
    ensures program == "" ==> ProgramStep(rows, program) == rows
    ensures program != "" ==>
              forall x :: x in ProgramStep(rows, program) <==> LenientKeeps(rows, ProgramCol, program, x)
  {
    LenientSpec(rows, ProgramCol, program);
  }

  /** The program filter, which is not optional: when the program is given,
      exact or substring matches replace the rows even when there are none. */
  function ProgramStep(rows: seq<Rec>, program: string): (out: seq<Rec>)
    ensures forall i :: 0 <= i < |out| ==> out[i] in rows
  {
    if program != "" then Lenient(rows, ProgramCol, program) else rows
  }

  /** `apply_filters`: program, then stream, quota, district and category. */
  function ApplyFilters(rows: seq<Rec>, q: Query): (out: seq<Rec>)
  {
    var tmp := ProgramStep(rows, q.program);
    Optional(Optional(Optional(Optional(tmp, StreamCol, q.stream), QuotaCol, q.quota),
                      DistrictCol, q.district), CategoryCol, q.category)
  }

  /** No row survives the program filter. */
  predicate NoProgramMatch(rows: seq<Rec>, program: string)
  {
    rows == [] || (program != "" && forall i :: 0 <= i < |rows| ==> !Contains(rows[i].program, program))
  }

  /** What `apply_filters` returns is a subset of the program-matched rows,
      and it is empty exactly when the program match is. */
  lemma ApplyFiltersSpec(rows: seq<Rec>, q: Query)
    ensures forall i :: 0 <= i < |ApplyFilters(rows, q)| ==>
              ApplyFilters(rows, q)[i] in ProgramStep(rows, q.program)
    ensures forall i :: 0 <= i < |ApplyFilters(rows, q)| ==>
              q.program == "" || Contains(ApplyFilters(rows, q)[i].program, q.program)
    ensures ApplyFilters(rows, q) == [] <==> NoProgramMatch(rows, q.program)
  {
    var tmp := ProgramStep(rows, q.program);
    var s1 := Optional(tmp, StreamCol, q.stream);
    var s2 := Optional(s1, QuotaCol, q.quota);
    var s3 := Optional(s2, DistrictCol, q.district);
    var s4 := Optional(s3, CategoryCol, q.category);
    assert forall x :: x in s4 ==> x in s3;
    assert forall x :: x in s3 ==> x in s2;
    assert forall x :: x in s2 ==> x in s1;
    assert forall x :: x in s1 ==> x in tmp;
    if q.program != "" {
      assert forall x :: x in tmp ==> Contains(x.program, q.program);
    }
  }

  /** The filter sets tried in turn: all, then without category, without
      quota, without district, and the program alone. */
  function Attempts(q: Query): seq<Query>
  {
    [q,
     q.(category := ""),
     q.(category := "", quota := ""),
     q.(category := "", quota := "", district := ""),
     q.(category := "", quota := "", district := "", stream := "")]
  }

  /** The first non-empty result of the attempts, empty if all are. */
  function FirstNonEmpty(rows: seq<Rec>, attempts: seq<Query>): seq<Rec>
  {
    if attempts == [] then []
    else
      var f := ApplyFilters(rows, attempts[0]);
      if f != [] then f else FirstNonEmpty(rows, attempts[1..])
  }

  /** The fallback cascade: the attempts in order and, when they are all
      empty and a program was given, every row whose program contains it. */
  function Cascade(rows: seq<Rec>, q: Query): seq<Rec>
  {
    var f := FirstNonEmpty(rows, Attempts(q));
    if f == [] && q.program != "" then Substring(rows, ProgramCol, q.program) else f
  }

  /** Attempts that share the program all give the first attempt's result. */
  lemma {:induction false} FirstNonEmptySameProgram(rows: seq<Rec>, attempts: seq<Query>)
    requires attempts != []
    requires forall i :: 0 <= i < |attempts| ==> attempts[i].program == attempts[0].program
    ensures FirstNonEmpty(rows, attempts) == ApplyFilters(rows, attempts[0])
  {
    ApplyFiltersSpec(rows, attempts[0]);
    if ApplyFilters(rows, attempts[0]) == [] && |attempts| > 1 {
      var rest := attempts[1..];
      FirstNonEmptySameProgram(rows, rest);
      ApplyFiltersSpec(rows, rest[0]);
    }
  }

  /** The fallbacks never turn an empty result into a non-empty one: the
      cascade always returns what the first attempt returns. */
  lemma CascadeIsFirstAttempt(rows: seq<Rec>, q: Query)
    ensures Cascade(rows, q) == ApplyFilters(rows, q)
  {
    FirstNonEmptySameProgram(rows, Attempts(q));
    ApplyFiltersSpec(rows, q);
    if ApplyFilters(rows, q) == [] && q.program != "" {
      FilterEmpty(rows, (r: Rec) => Contains(Get(r, ProgramCol), q.program));
    }
  }
}
