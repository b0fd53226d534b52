/** Schema normalisation of the yearly `rank_YYYY` snapshots into one
    canonical rank table, and the left join of each institute's district
    (backend/recommendation.py, `_prepare_master_rank_df`). */
module Normalize {
  import opened Seqs
  import opened Text

  /** A cell of a frame read with `dtype='object'`: `pd.NA` (the value pandas
      stores in a column the snapshot lacked), `NaN` (an empty CSV field), or
      text. */
  datatype Cell = Absent | Nan | Val(text: string)

  /** A loaded CSV file: its name without `.csv`, its header, its rows. */
  datatype Table = Table(name: string, header: set<string>, rows: seq<map<string, string>>)

  /** A row of the college reference table, reduced to the two columns the
      district join reads. */
  datatype CollegeRow = CollegeRow(institute: Cell, district: Cell)

  /** A row of the canonical rank table (`master_rank_df`). `Round` is kept
      as read: it is neither cleaned nor converted to a number. */
  datatype RankRow = RankRow(
    year: Option<int>, round: Cell,
    institute: string, program: string, stream: string, seatType: string,
    quota: string, category: string,
    opening: Option<real>, closing: Option<real>)

  /** A row of `merged_df`: a rank row with the district the join found. */
  datatype MergedRow = MergedRow(rank: RankRow, district: Cell)

  /** The canonical columns, in the order the source lists them. */
  const RequiredColumns: seq<string> :=
    ["Year", "Round", "Institute", "Program", "Stream", "Seat Type", "Quota",
     "Category", "Opening Rank", "Closing Rank"]

  /** The value a snapshot has in column `col` of `row`; a column the
      snapshot lacks reads as `pd.NA`, an empty field as `NaN`. */
  function CellOf(t: Table, row: map<string, string>, col: string): Cell
  {
    if col !in t.header then Absent
    else if col in row && row[col] != "" then Val(row[col])
    else Nan
  }

  /** `str(value)` of a cell, as `astype(str)` renders it. */
  function CellText(c: Cell): string
  {
    match c
    case Absent => "<NA>"
    case Nan => "nan"
    case Val(s) => s
  }

  /** `.astype(str).str.strip().str.lower().replace('nan', '')`: the
      cleaning applied to every key text column. */
  function CleanText(c: Cell): (r: string)
    ensures forall i :: 0 <= i < |r| ==> !IsUpper(r[i])
    ensures r == [] || (!IsSpace(r[0]) && !IsSpace(r[|r| - 1]))
    ensures r != "nan"
    ensures c == Nan ==> r == ""
  {
    var s := Strip(CellText(c));
    LowerFacts(s);
    var t := Lower(s);
    NanText();
    if t == "nan" then "" else t
  }

  /** The text `astype(str)` gives a NaN strips and lower-cases to itself. */
  lemma NanText()
    ensures Lower(Strip("nan")) == "nan"
  {
    assert StripLeft("nan") == "nan";
    assert StripRight("nan") == "nan";
  }

  /** Cleaning an already clean value changes nothing, so the repeated
      cleaning passes (the master table, the join, the predictor) agree. */
  lemma CleanTextIdempotent(c: Cell)
    ensures CleanText(Val(CleanText(c))) == CleanText(c)
  {
    var u := CleanText(c);
    StripStripped(u);
    assert Lower(u) == u;
  }

  /** Text that is already lower case, has no surrounding whitespace and
      is not `nan` is its own cleaned value. */
  lemma CleanTextFixesClean(s: string)
    requires forall i :: 0 <= i < |s| ==> !IsUpper(s[i])
    requires s == [] || (!IsSpace(s[0]) && !IsSpace(s[|s| - 1]))
    requires s != "nan"
    ensures CleanText(Val(s)) == s
  {
    StripStripped(s);
    LowerNoUpper(s);
  }

  /** The cleaned value depends only on the stripped, lower-cased text:
      texts that differ in letter case and surrounding whitespace clean
      alike. */
  lemma CleanTextIgnoresCaseAndSpace(a: string, b: string)
    requires Lower(Strip(a)) == Lower(Strip(b))
    ensures CleanText(Val(a)) == CleanText(Val(b))
  {
  }

  /** `int(name.split('_')[1])`, reduced to a plain run of decimal digits;
      anything else is the `except` branch, `pd.NA`. */
  function ParseYear(name: string): Option<int>
  {
    var pieces := SplitAny(name, IsUnderscore);
    if |pieces| >= 2 && AllDigits(pieces[1]) then Some(DecimalValue(pieces[1])) else None
  }

  predicate IsUnderscore(c: char) { c == '_' }

  predicate AllDigits(s: string)
  {
    s != [] && forall i :: 0 <= i < |s| ==> IsDigit(s[i])
  }

  function DecimalValue(s: string): nat
    requires forall i :: 0 <= i < |s| ==> IsDigit(s[i])
  {
    if s == [] then 0
    else
      assert IsDigit(s[|s| - 1]);
      DecimalValue(s[..|s| - 1]) * 10 + (s[|s| - 1] as int - '0' as int)
  }

  /** The decimal digits of `n`, as `str(n)` prints them. */
  function Show(n: nat): (r: string)
    ensures AllDigits(r)
  {
    if n < 10 then [('0' as int + n) as char] else Show(n / 10) + [('0' as int + n % 10) as char]
  }

  lemma {:induction false} DecimalValueShow(n: nat)
    ensures DecimalValue(Show(n)) == n
  {
    if n >= 10 {
      DecimalValueShow(n / 10);
      var s := Show(n);
      assert s[..|s| - 1] == Show(n / 10);
    }
  }

  lemma {:induction false} SplitUnderscoreFree(s: string)
    requires forall i :: 0 <= i < |s| ==> s[i] != '_'
    ensures SplitAny(s, IsUnderscore) == [s]
  {
    if s != [] {
      SplitUnderscoreFree(s[1..]);
      assert [s[0]] + s[1..] == s;
    }
  }

  lemma {:induction false} SplitAfterUnderscore(p: string, rest: string)
    requires forall i :: 0 <= i < |p| ==> p[i] != '_'
    ensures SplitAny(p + "_" + rest, IsUnderscore) == [p] + SplitAny(rest, IsUnderscore)
  {
    if p != [] {
      SplitAfterUnderscore(p[1..], rest);
      assert (p + "_" + rest)[1..] == p[1..] + "_" + rest;
      assert [p[0]] + p[1..] == p;
    } else {
      assert (p + "_" + rest)[1..] == rest;
    }
  }

  /** Every snapshot named `rank_<year>` yields that year. */
  lemma YearOfSnapshotName(y: nat)
    ensures ParseYear("rank_" + Show(y)) == Some(y)
  {
    var d := Show(y);
    assert forall i :: 0 <= i < |d| ==> d[i] != '_';
    SplitAfterUnderscore("rank", d);
    assert "rank_" + d == "rank" + "_" + d;
    SplitUnderscoreFree(d);
    DecimalValueShow(y);
  }

  /** The regular expression `B\.E/B\.Tech.*|B\.E/B\.Arch.*|B\.Tech.*` can
      start matching at offset `i` (case-sensitive). */
  predicate StreamMarkerAt(s: string, i: nat)
    requires i <= |s|
  {
    "B.E/B.Tech" <= s[i..] || "B.E/B.Arch" <= s[i..] || "B.Tech" <= s[i..]
  }

  /** Where `.*` stops: the first line break at or after `i`, or the end. */
  function LineEnd(s: string, i: nat): (j: nat)
    requires i <= |s|
    ensures i <= j <= |s|
    ensures j < |s| ==> s[j] == '\n'
    ensures forall k :: i <= k < j ==> s[k] != '\n'
    decreases |s| - i
  {
    if i == |s| || s[i] == '\n' then i else LineEnd(s, i + 1)
  }

  /** `str.replace(pattern, 'b.e/b. tech', regex=True)`: every match,
      leftmost first, runs to the end of its line and is replaced. */
  function RewriteStream(s: string): string
    decreases |s|
  {
    if s == [] then []
    else if StreamMarkerAt(s, 0) then
      var j := LineEnd(s, 0);
      "b.e/b. tech" + RewriteStream(s[j..])
    else [s[0]] + RewriteStream(s[1..])
  }

  /** The rewrite replaces everything from the first marker to the end of a
      single-line value, and keeps the text before it. */
  lemma {:induction false} RewriteStreamReplacesTail(s: string, i: nat)
    requires i < |s| && StreamMarkerAt(s, i)
    requires forall k :: 0 <= k < i ==> !StreamMarkerAt(s, k)
    requires forall k :: 0 <= k < |s| ==> s[k] != '\n'
    ensures RewriteStream(s) == s[..i] + "b.e/b. tech"
  {
    if i == 0 {
      RewriteAtMarker(s);
      assert s[..0] == [];
    } else {
      var t := s[1..];
      RewriteUnmarkedStep(s);
      MarkerShift(s, i);
      RewriteStreamReplacesTail(t, i - 1);
      KeepFirstChar(s, i, RewriteStream(t), "b.e/b. tech");
    }
  }

  /** Putting the first character back in front of the rewritten tail. */
  lemma KeepFirstChar(s: string, i: nat, rest: string, tail: string)
    requires 0 < i <= |s| && rest == s[1..][..i - 1] + tail
    ensures [s[0]] + rest == s[..i] + tail
  {
    assert s[..i] == [s[0]] + s[1..][..i - 1];
  }

  /** A single-line value that starts with a marker is replaced whole. */
  lemma RewriteAtMarker(s: string)
    requires s != [] && StreamMarkerAt(s, 0)
    requires forall k :: 0 <= k < |s| ==> s[k] != '\n'
    ensures RewriteStream(s) == "b.e/b. tech"
  {
    LineEndOfSingleLine(s, 0);
    assert s[|s|..] == [];
  }

  /** A value that does not start with a marker keeps its first character. */
  lemma RewriteUnmarkedStep(s: string)
    requires s != [] && !StreamMarkerAt(s, 0)
    ensures RewriteStream(s) == [s[0]] + RewriteStream(s[1..])
  {
  }

  /** Dropping the first character shifts the marker positions by one. */
  lemma MarkerShift(s: string, i: nat)
    requires 0 < i < |s| && StreamMarkerAt(s, i)
    requires forall k :: 0 <= k < i ==> !StreamMarkerAt(s, k)
    requires forall k :: 0 <= k < |s| ==> s[k] != '\n'
    ensures StreamMarkerAt(s[1..], i - 1)
    ensures forall k :: 0 <= k < i - 1 ==> !StreamMarkerAt(s[1..], k)
    ensures forall k :: 0 <= k < |s[1..]| ==> s[1..][k] != '\n'
  {
    var t := s[1..];
    forall k | 0 <= k < i - 1 ensures !StreamMarkerAt(t, k) {
      assert t[k..] == s[k + 1..];
      assert !StreamMarkerAt(s, k + 1);
    }
    assert t[i - 1..] == s[i..];
  }

  /** In a value without line breaks `.*` runs to the end. */
  lemma {:induction false} LineEndOfSingleLine(s: string, i: nat)
    requires i <= |s|
    requires forall k :: 0 <= k < |s| ==> s[k] != '\n'
    ensures LineEnd(s, i) == |s|
    decreases |s| - i
  {
    if i < |s| {
      LineEndOfSingleLine(s, i + 1);
    }
  }

  /** A value with no marker is left as it is. */
  lemma {:induction false} RewriteStreamUnmarked(s: string)
    requires forall k :: 0 <= k < |s| ==> !StreamMarkerAt(s, k)
    ensures RewriteStream(s) == s
  {
    if s != [] {
      forall k | 0 <= k < |s| - 1 ensures !StreamMarkerAt(s[1..], k) {
        assert s[1..][k..] == s[k + 1..];
        assert !StreamMarkerAt(s, k + 1);
      }
      RewriteStreamUnmarked(s[1..]);
      assert [s[0]] + s[1..] == s;
    }
  }

  /** The Stream cell after `fillna('').astype(str).str.replace(...)`, done
      only when the snapshot has a Stream column. */
  function StreamCell(t: Table, row: map<string, string>): Cell
  {
    match CellOf(t, row, "Stream")
    case Absent => Absent
    case Nan => Val("")
    case Val(s) => Val(RewriteStream(s))
  }

  /** `pd.to_numeric(errors='coerce')`: text goes through the number parser,
      missing values and unparsable text become null. */
  function ToNumber(c: Cell, parse: string -> Option<real>): Option<real>
  {
    match c
    case Val(s) => parse(s)
    case _ => None
  }

  /** One snapshot row in the canonical schema. */
  function NormalizeRow(t: Table, row: map<string, string>, parse: string -> Option<real>): RankRow
  {
    RankRow(
      ParseYear(t.name),
      CellOf(t, row, "Round"),
      CleanText(CellOf(t, row, "Institute")),
      CleanText(CellOf(t, row, "Program")),
      CleanText(StreamCell(t, row)),
      CleanText(if "Seat Type" in t.header then CellOf(t, row, "Seat Type") else Val("N/A")),
      CleanText(CellOf(t, row, "Quota")),
      CleanText(CellOf(t, row, "Category")),
      ToNumber(CellOf(t, row, "Opening Rank"), parse),
      ToNumber(CellOf(t, row, "Closing Rank"), parse))
  }

  /** Only the tables whose name starts with `rank_20` are rank snapshots. */
  predicate IsRankSnapshot(t: Table) { "rank_20" <= t.name }

  function NormalizeTable(t: Table, parse: string -> Option<real>): (r: seq<RankRow>)
    ensures |r| == |t.rows|
  {
    seq(|t.rows|, k requires 0 <= k < |t.rows| => NormalizeRow(t, t.rows[k], parse))
  }

  /** Number of rows over all rank snapshots. */
  function RankRowCount(tables: seq<Table>): nat
  {
    if tables == [] then 0
    else (if IsRankSnapshot(tables[0]) then |tables[0].rows| else 0) + RankRowCount(tables[1..])
  }

  /** The per-table normalisation, as a value. */
  function TableRows(parse: string -> Option<real>): Table -> seq<RankRow>
  {
    t => NormalizeTable(t, parse)
  }

  /** The rank snapshots, in load order, each mapped by `f`, concatenated. */
  function Snapshots<T>(tables: seq<Table>, f: Table -> seq<T>): seq<T>
  {
    if tables == [] then []
    else (if IsRankSnapshot(tables[0]) then f(tables[0]) else []) + Snapshots(tables[1..], f)
  }

  lemma {:induction false} SnapshotsLength<T>(tables: seq<Table>, f: Table -> seq<T>)
    requires forall t :: |f(t)| == |t.rows|
    ensures |Snapshots(tables, f)| == RankRowCount(tables)
  {
    if tables != [] {
      SnapshotsLength(tables[1..], f);
    }
  }

  lemma {:induction false} SnapshotRow<T>(tables: seq<Table>, f: Table -> seq<T>, ti: nat, ri: nat)
    requires ti < |tables| && IsRankSnapshot(tables[ti]) && ri < |f(tables[ti])|
    ensures f(tables[ti])[ri] in Snapshots(tables, f)
  {
    var head := if IsRankSnapshot(tables[0]) then f(tables[0]) else [];
    var rest := Snapshots(tables[1..], f);
    if ti == 0 {
      InLeft(head, rest, ri);
    } else {
      assert tables[1..][ti - 1] == tables[ti];
      SnapshotRow(tables[1..], f, ti - 1, ri);
      InRight(head, rest, f(tables[ti])[ri]);
    }
  }

  /** `master_rank_df`: the rank snapshots, in load order, each row
      normalised, concatenated. */
  function MasterRank(tables: seq<Table>, parse: string -> Option<real>): (r: seq<RankRow>)
    ensures |r| == RankRowCount(tables)
  {
    SnapshotsLength(tables, TableRows(parse));
    Snapshots(tables, TableRows(parse))
  }

  /** Every row of a rank snapshot reaches the master table. */
  lemma MasterRankRow(tables: seq<Table>, parse: string -> Option<real>, ti: nat, ri: nat)
    requires ti < |tables| && IsRankSnapshot(tables[ti]) && ri < |tables[ti].rows|
    ensures NormalizeTable(tables[ti], parse)[ri] in MasterRank(tables, parse)
  {
    SnapshotRow(tables, TableRows(parse), ti, ri);
  }

  lemma InLeft<T>(a: seq<T>, b: seq<T>, i: nat)
    requires i < |a|
    ensures a[i] in a + b
  {
    assert (a + b)[i] == a[i];
  }

  lemma InRight<T>(a: seq<T>, b: seq<T>, x: T)
    requires x in b
    ensures x in a + b
  {
    var j :| 0 <= j < |b| && b[j] == x;
    assert (a + b)[|a| + j] == x;
  }

  /** The cleaned renderings of `pd.NA`, of the seat-type default and of an
      emptied cell. */
  lemma CleanLiterals()
    ensures CleanText(Absent) == "<na>"
    ensures CleanText(Val("N/A")) == "n/a"
    ensures CleanText(Val("")) == ""
  {
    CleanAbsent();
    CleanNotApplicable();
  }

  lemma CleanAbsent()
    ensures CleanText(Absent) == "<na>"
  {
    StripStripped("<NA>");
    assert Lower("<NA>") == "<na>";
  }

  lemma CleanNotApplicable()
    ensures CleanText(Val("N/A")) == "n/a"
  {
    StripStripped("N/A");
    assert Lower("N/A") == "n/a";
  }

  /** The per-row guarantees of the normalisation: the snapshot's year,
      ranks that are the number parser's reading of the raw text (null when
      missing), and the round kept as read. */
  lemma NormalizeRowFacts(t: Table, row: map<string, string>, parse: string -> Option<real>)
    ensures NormalizeRow(t, row, parse).year == ParseYear(t.name)
    ensures NormalizeRow(t, row, parse).closing ==
              (if "Closing Rank" in t.header && "Closing Rank" in row && row["Closing Rank"] != ""
               then parse(row["Closing Rank"]) else None)
    ensures NormalizeRow(t, row, parse).opening ==
              (if "Opening Rank" in t.header && "Opening Rank" in row && row["Opening Rank"] != ""
               then parse(row["Opening Rank"]) else None)
    ensures NormalizeRow(t, row, parse).round == CellOf(t, row, "Round")
  {
  }

  /** A snapshot without a Seat Type column gets `n/a`. */
  lemma SeatTypeDefault(t: Table, row: map<string, string>, parse: string -> Option<real>)
    requires "Seat Type" !in t.header
    ensures NormalizeRow(t, row, parse).seatType == "n/a"
  {
    CleanLiterals();
  }

  /** A snapshot without a Stream column yields the rendering of `pd.NA`,
      while an empty Stream field yields the empty string. */
  lemma MissingStreamColumn(t: Table, row: map<string, string>, parse: string -> Option<real>)
    ensures "Stream" !in t.header ==> NormalizeRow(t, row, parse).stream == "<na>"
    ensures "Stream" in t.header && ("Stream" !in row || row["Stream"] == "") ==>
              NormalizeRow(t, row, parse).stream == ""
  {
    CleanLiterals();
    assert RewriteStream("") == "";
  }

  /** The mask selecting college rows whose cleaned institute is `inst`. */
  function SameInstitute(inst: string): CollegeRow -> bool
  {
    (c: CollegeRow) => CleanText(c.institute) == inst
  }

  /** The college rows whose cleaned institute is `inst`, in table order. */
  function MatchingRows(inst: string, college: seq<CollegeRow>): (r: seq<CollegeRow>)
    ensures forall k :: 0 <= k < |r| ==> r[k] in college && CleanText(r[k].institute) == inst
  {
    FilterIn(college, SameInstitute(inst));
    Filter(college, SameInstitute(inst))
  }

  /** The join finds no row exactly when no college row has the institute. */
  lemma MatchingRowsEmpty(inst: string, college: seq<CollegeRow>)
    ensures MatchingRows(inst, college) == [] <==>
              forall k :: 0 <= k < |college| ==> CleanText(college[k].institute) != inst
  {
    FilterEmpty(college, SameInstitute(inst));
  }

  /** The rows the left join makes of one rank row: one per matching college
      row, with its district cleaned again after the join, or one with an
      empty district when none matches (the unmatched `NaN` cleans to the
      empty string, as `CleanText`'s contract states). */
  function JoinDistrict(r: RankRow, college: seq<CollegeRow>): (out: seq<MergedRow>)
    ensures |out| >= 1
    ensures forall k :: 0 <= k < |out| ==> out[k].rank == r
  {
    var ms := MatchingRows(r.institute, college);
    if ms == [] then [MergedRow(r, Val(""))] else Map(ms, JoinWith(r))
  }

  /** Joining with rank row `r`, as a value. */
  function JoinWith(r: RankRow): CollegeRow -> MergedRow
  {
    c => JoinedRow(r, c)
  }

  /** A rank row joined with one matching college row. */
  function JoinedRow(r: RankRow, c: CollegeRow): (m: MergedRow)
    ensures m.rank == r
  {
    MergedRow(r, Val(CleanText(Val(CleanText(c.district)))))
  }

  /** The district the join gives a rank row: the cleaned district of a
      college row with the same cleaned institute, or the empty string when
      there is none. */
  lemma JoinDistrictValue(r: RankRow, college: seq<CollegeRow>, k: nat)
    requires k < |JoinDistrict(r, college)|
    ensures (exists c :: c in college && CleanText(c.institute) == r.institute
                         && JoinDistrict(r, college)[k].district == Val(CleanText(c.district)))
            || (JoinDistrict(r, college)[k].district == Val("")
                && forall i :: 0 <= i < |college| ==> CleanText(college[i].institute) != r.institute)
  {
    var ms := MatchingRows(r.institute, college);
    MatchingRowsEmpty(r.institute, college);
    if ms != [] {
      var c := ms[k];
      CleanTextIdempotent(c.district);
      assert c in college && CleanText(c.institute) == r.institute;
    }
  }

  /** The merged rows of one rank row: its join matches, or one row with a
      missing district when there is no college table. */
  function JoinRow(r: RankRow, college: Option<seq<CollegeRow>>): (out: seq<MergedRow>)
    ensures |out| >= 1
    ensures forall k :: 0 <= k < |out| ==> out[k].rank == r
  {
    match college
    case None => [MergedRow(r, Absent)]
    case Some(c) => JoinDistrict(r, c)
  }

  /** Joining against `college`, as a value. */
  function JoinOf(college: Option<seq<CollegeRow>>): RankRow -> seq<MergedRow>
  {
    r => JoinRow(r, college)
  }

  /** `merged_df`: the left join of the master table with the college table
      on the cleaned institute name, in master order; without a college
      table the district is `pd.NA`. */
  function Merge(master: seq<RankRow>, college: Option<seq<CollegeRow>>): (out: seq<MergedRow>)
    ensures |out| >= |master|
    ensures college.None? ==> |out| == |master|
  {
    ConcatMapLength(master, JoinOf(college));
    ConcatMap(master, JoinOf(college))
  }

  /** The left join never drops a rank row. */
  lemma MergeKeepsRows(master: seq<RankRow>, college: Option<seq<CollegeRow>>, i: nat)
    requires i < |master|
    ensures exists k :: 0 <= k < |Merge(master, college)| && Merge(master, college)[k].rank == master[i]
  {
    var row := JoinRow(master[i], college);
    assert JoinOf(college)(master[i]) == row;
    ConcatMapCovers(master, JoinOf(college), i, 0);
    var k :| 0 <= k < |Merge(master, college)| && Merge(master, college)[k] == row[0];
  }
}
