/** The explore page's helpers: the case-insensitive institute key and the
    program, recruiter and job-profile lists gathered from an institute's
    placement rows. A placement row is a CSV record read with every blank
    cell as `''`, so a column is usable when it is present and non-blank. */
module Explore {
  import opened Seqs
  import opened Text

  // ---------------------------------------------------------------------
  // The institute key

  /** `_key`: the trimmed, lower-cased name; `''` for a missing name. The
      key has no upper-case letter and no whitespace at either end. */
  function Key(name: Option<string>): (k: string)
    ensures forall i :: 0 <= i < |k| ==> !IsUpper(k[i])
    ensures k == [] || (!IsSpace(k[0]) && !IsSpace(k[|k| - 1]))
  {
    var s := Strip(if name.Some? then name.value else "");
    LowerFacts(s);
    Lower(s)
  }

  lemma KeyOfNothing()
    ensures Key(None) == "" && Key(Some("")) == ""
  {
  }

  /** Keying a key gives it back. */
  lemma KeyIdempotent(name: Option<string>)
    ensures Key(Some(Key(name))) == Key(name)
  {
    var k := Key(name);
    NormalKeyIsFixed(k);
  }

  lemma NormalKeyIsFixed(k: string)
    requires forall i :: 0 <= i < |k| ==> !IsUpper(k[i])
    requires k == [] || (!IsSpace(k[0]) && !IsSpace(k[|k| - 1]))
    ensures Key(Some(k)) == k
  {
    StripStripped(k);
    LowerNoUpper(k);
  }

  /** Names that differ only in the case of letters and surrounding
      whitespace get the same key. */
  lemma KeyIgnoresCaseAndSpace(a: string, b: string)
    requires Lower(Strip(a)) == Lower(Strip(b))
    ensures Key(Some(a)) == Key(Some(b))
  {
  }

  // ---------------------------------------------------------------------
  // Placement rows

  /** A CSV record: column name to cell text. */
  type Row = map<string, string>

  /** `r.get(col)` is truthy. */
  predicate Usable(row: Row, col: string)
  {
    col in row && row[col] != ""
  }

  const ProgramColumns: seq<string> :=
    ["Program", "program", "Program Name", "program_name", "Program_Name", "course"]
  const RecruiterColumns: seq<string> :=
    ["top_recruiter", "top_recruiters", "TopRecruiters", "Top_Recruiters", "top_recruiter_name",
     "recruiter", "recruiters"]
  const JobColumns: seq<string> :=
    ["job_titles", "job_title", "JobTitles", "Job_Title", "job_profiles", "job_profile", "job"]

  /** The `r.get(a) or r.get(b) or ...` chain: the first usable column's
      text, if any. */
  function FirstValue(row: Row, cols: seq<string>): Option<string>
  {
    if cols == [] then None
    else if Usable(row, cols[0]) then Some(row[cols[0]])
    else FirstValue(row, cols[1..])
  }

  /** Column `k` is the first usable one. */
  predicate FirstUsableAt(row: Row, cols: seq<string>, k: int)
  {
    0 <= k < |cols| && Usable(row, cols[k]) && forall m :: 0 <= m < k ==> !Usable(row, cols[m])
  }

  /** The chain yields the first usable column's text, and nothing exactly
      when no column is usable. */
  lemma {:induction false} FirstValueSpec(row: Row, cols: seq<string>)
    ensures FirstValue(row, cols).None? <==> forall k :: 0 <= k < |cols| ==> !Usable(row, cols[k])
    ensures FirstValue(row, cols).Some? ==>
      exists k :: FirstUsableAt(row, cols, k) && FirstValue(row, cols).value == row[cols[k]]
  {
    if cols != [] {
      FirstValueSpec(row, cols[1..]);
      if !Usable(row, cols[0]) {
        assert forall k :: 1 <= k < |cols| ==> cols[k] == cols[1..][k - 1];
        if FirstValue(row, cols).Some? {
          var k :| FirstUsableAt(row, cols[1..], k) && FirstValue(row, cols[1..]).value == row[cols[1..][k]];
          assert FirstUsableAt(row, cols, k + 1);
        }
      } else {
        assert FirstUsableAt(row, cols, 0);
      }
    }
  }

  /** The separators of a list cell: `; , | /`. */
  predicate IsListSep(c: char)
  {
    c == ';' || c == ',' || c == '|' || c == '/'
  }

  /** A cell split on the separators, each piece trimmed, blanks dropped. */
  function CellPieces(v: string): set<string>
  {
    PiecesOf(SplitAny(v, IsListSep))
  }

  /** Every piece of a cell is non-blank, has no whitespace at either end
      and no separator, and is a slice of the cell. */
  lemma CellPieceClean(v: string, x: string)
    requires x in CellPieces(v)
    ensures x != "" && Strip(x) == x
    ensures forall i :: 0 <= i < |x| ==> !IsListSep(x[i])
    ensures exists i :: OccursAt(v, x, i)
  {
    SplitPieceClean(v, IsListSep, x);
  }

  /** A gap between "batch" and its year: whitespace, `_` or `-`. */
  predicate IsBatchGap(c: char)
  {
    IsSpace(c) || c == '_' || c == '-'
  }

  /** `batch`, in any case, at `i`, then gap characters up to `j`, then at
      least two digits. */
  predicate BatchAt(p: string, i: int, j: int)
  {
    && 0 <= i && i + 5 <= j && j + 2 <= |p|
    && Lower(p[i..i + 5]) == "batch"
    && (forall m :: i + 5 <= m < j ==> IsBatchGap(p[m]))
    && IsDigit(p[j]) && IsDigit(p[j + 1])
  }

  /** `batch_re.search(p)` for `(?i)batch[\s_-]*\d{2,4}`: two digits already
      complete a match, so the upper bound of four never matters. */
  predicate HasBatchToken(p: string)
  {
    exists i, j | 0 <= i <= j < |p| :: BatchAt(p, i, j)
  }

  /** Example: "Batch 2019" is a batch token. */
  lemma BatchYearMatches()
    ensures HasBatchToken("Batch 2019")
  {
    assert "Batch 2019"[0..5] == "Batch";
    assert BatchAt("Batch 2019", 0, 6);
  }

  /** Example: upper case and a run of two gap characters still match. */
  lemma BatchAnyCaseAndGapMatches()
    ensures HasBatchToken("placed BATCH_-21")
  {
    assert "placed BATCH_-21"[7..12] == "BATCH";
    assert BatchAt("placed BATCH_-21", 7, 14);
  }

  /** Example: a plain company name is not a batch token. */
  lemma CompanyNameDoesNotMatch()
    ensures !HasBatchToken("Infosys")
  {
    forall i, j | 0 <= i <= j < 7 ensures !BatchAt("Infosys", i, j) {
      if i == 0 && j == 5 {
        assert "Infosys"[0..5] == "Infos";
        assert Lower("Infos")[0] == 'i';
      }
    }
  }

  /** `search` looks everywhere: text around a batch token does not hide
      it. */
  lemma BatchTokenAnywhere(a: string, p: string, b: string)
    requires HasBatchToken(p)
    ensures HasBatchToken(a + p + b)
  {
    var i, j :| 0 <= i <= j < |p| && BatchAt(p, i, j);
    var s := a + p + b;
    assert s[|a|..|a| + |p|] == p;
    BatchAtShift(p, s, |a|, i, j);
  }

  /** A batch token of `p` is one of any text holding `p` at `k`. */
  lemma BatchAtShift(p: string, s: string, k: int, i: int, j: int)
    requires 0 <= k && k + |p| <= |s| && s[k..k + |p|] == p
    requires BatchAt(p, i, j)
    ensures BatchAt(s, k + i, k + j)
  {
    forall x | 0 <= x < |p| ensures s[k + x] == p[x] {
      assert s[k..k + |p|][x] == s[k + x];
    }
    assert s[k + i..k + i + 5] == p[i..i + 5];
    forall m | k + i + 5 <= m < k + j ensures IsBatchGap(s[m]) {
      assert s[m] == p[m - k];
    }
  }

  /** Programs and job profiles drop no piece. */
  predicate DropsNothing(p: string)
  {
    false
  }

  /** The pieces not dropped: recruiters drop those with a batch token. */
  function Keep(pieces: set<string>, drop: string -> bool): set<string>
  {
    set x | x in pieces && !drop(x)
  }

  /** What one column of a row contributes. */
  function CellOf(row: Row, drop: string -> bool): string -> set<string>
  {
    (c: string) => if Usable(row, c) then Keep(CellPieces(row[c]), drop) else {}
  }

  /** What one row contributes over every listed column. */
  function ColumnsOf(cols: seq<string>, drop: string -> bool): Row -> set<string>
  {
    (row: Row) => UnionOf(cols, CellOf(row, drop))
  }

  /** What one row contributes from its first usable program column. */
  function ProgramOf(cols: seq<string>): Row -> set<string>
  {
    (row: Row) => match FirstValue(row, cols)
      case None => {}
      case Some(v) => CellPieces(v)
  }

  /** Adding one stripped text to the pieces, then keeping: the text is
      kept when it is non-blank and not dropped. */
  lemma KeepAdd(pieces: set<string>, p: string, drop: string -> bool)
    ensures Keep(pieces + (if p != "" then {p} else {}), drop) ==
            Keep(pieces, drop) + (if p != "" && !drop(p) then {p} else {})
  {
  }

  /** The result of `_extract_placement_lists`. */
  datatype PlacementLists = PlacementLists(
    numPrograms: nat, programs: seq<string>, topRecruiters: seq<string>, jobProfiles: seq<string>)

  /** `sorted([x for x in s if x])`. */
  function Listed(s: set<string>): seq<string>
  {
    SortedItems(set x | x in s && x != "")
  }

  function PlacementListsOf(rows: seq<Row>): PlacementLists
  {
    if rows == [] then PlacementLists(0, [], [], [])
    else
      var progs := Listed(UnionOf(rows, ProgramOf(ProgramColumns)));
      PlacementLists(|progs|, progs,
                     Listed(UnionOf(rows, ColumnsOf(RecruiterColumns, HasBatchToken))),
                     Listed(UnionOf(rows, ColumnsOf(JobColumns, DropsNothing))))
  }

  // ---------------------------------------------------------------------
  // The extraction loops

  /** Splits one cell and adds its trimmed, non-blank pieces, skipping
      batch tokens when asked. */
  method AddPieces(acc: set<string>, v: string, drop: string -> bool) returns (out: set<string>)
    ensures out == acc + Keep(CellPieces(v), drop)
  {
    var parts := SplitAny(v, IsListSep);
    out := acc;
    for j := 0 to |parts|
      invariant out == acc + Keep(PiecesOf(parts[..j]), drop)
    {
      var p := Strip(parts[j]);
      AddPiecesStep(acc, out, parts, j, drop);
      if p != "" && !drop(p) {
        out := out + {p};
      }
    }
    assert parts[..|parts|] == parts;
  }

  /** One step of the loop over the pieces of a cell. */
  lemma AddPiecesStep(acc: set<string>, out: set<string>, parts: seq<string>, j: int, drop: string -> bool)
    requires 0 <= j < |parts|
    requires out == acc + Keep(PiecesOf(parts[..j]), drop)
    ensures var p := Strip(parts[j]);
      acc + Keep(PiecesOf(parts[..j + 1]), drop) == out + (if p != "" && !drop(p) then {p} else {})
  {
    PiecesOfSnoc(parts, j);
    KeepAdd(PiecesOf(parts[..j]), Strip(parts[j]), drop);
  }

  /** Adds the pieces of every usable listed column of one row. */
  method AddColumns(acc: set<string>, row: Row, cols: seq<string>, drop: string -> bool) returns (out: set<string>)
    ensures out == acc + ColumnsOf(cols, drop)(row)
  {
    out := acc;
    for j := 0 to |cols|
      invariant out == acc + UnionOf(cols[..j], CellOf(row, drop))
    {
      UnionOfSnoc(cols, CellOf(row, drop), j);
      if cols[j] in row && row[cols[j]] != "" {
        out := AddPieces(out, row[cols[j]], drop);
      }
    }
    assert cols[..|cols|] == cols;
  }

  /** `_extract_placement_lists`. */
  method ExtractPlacementLists(rows: seq<Row>) returns (r: PlacementLists)
    ensures r == PlacementListsOf(rows)
  {
    if rows == [] {
      return PlacementLists(0, [], [], []);
    }
    var progSet: set<string> := {};
    var recruiters: set<string> := {};
    var profiles: set<string> := {};
    for i := 0 to |rows|
      invariant progSet == UnionOf(rows[..i], ProgramOf(ProgramColumns))
      invariant recruiters == UnionOf(rows[..i], ColumnsOf(RecruiterColumns, HasBatchToken))
      invariant profiles == UnionOf(rows[..i], ColumnsOf(JobColumns, DropsNothing))
    {
      UnionOfSnoc(rows, ProgramOf(ProgramColumns), i);
      UnionOfSnoc(rows, ColumnsOf(RecruiterColumns, HasBatchToken), i);
      UnionOfSnoc(rows, ColumnsOf(JobColumns, DropsNothing), i);
      var prog := FirstValue(rows[i], ProgramColumns);
      if prog.Some? {
        progSet := AddPieces(progSet, prog.value, DropsNothing);
      }
      recruiters := AddColumns(recruiters, rows[i], RecruiterColumns, HasBatchToken);
      profiles := AddColumns(profiles, rows[i], JobColumns, DropsNothing);
    }
    assert rows[..|rows|] == rows;
    var progs := Listed(progSet);
    r := PlacementLists(|progs|, progs, Listed(recruiters), Listed(profiles));
  }

  // ---------------------------------------------------------------------
  // Properties

  /** No rows: no programs and three empty lists. */
  lemma NoRowsNoLists()
    ensures var r := PlacementListsOf([]);
      r.numPrograms == 0 && r.programs == [] && r.topRecruiters == [] && r.jobProfiles == []
  {
  }

  /** The three lists are strictly ascending (so duplicate-free), hold no
      blank entry, and `num_programs` counts the programs. */
  lemma ListsSortedAndCounted(rows: seq<Row>)
    ensures var r := PlacementListsOf(rows);
      StrictlySorted(r.programs) && StrictlySorted(r.topRecruiters) && StrictlySorted(r.jobProfiles) &&
      "" !in r.programs && "" !in r.topRecruiters && "" !in r.jobProfiles &&
      r.numPrograms == |r.programs|
  {
  }

  /** `Listed` sorts the non-blank members. */
  lemma ListedSpec(s: set<string>, x: string)
    ensures x in Listed(s) <==> x in s && x != ""
  {
  }

  /** Row `i`'s first usable program column has `x` among its pieces. */
  predicate ProgramOfRow(rows: seq<Row>, cols: seq<string>, i: int, x: string)
  {
    0 <= i < |rows| && FirstValue(rows[i], cols).Some? &&
    x in CellPieces(FirstValue(rows[i], cols).value)
  }

  lemma ProgramsGathered(rows: seq<Row>, cols: seq<string>, x: string)
    ensures x in Listed(UnionOf(rows, ProgramOf(cols))) <==> exists i :: ProgramOfRow(rows, cols, i, x)
  {
    ListedSpec(UnionOf(rows, ProgramOf(cols)), x);
    if x in UnionOf(rows, ProgramOf(cols)) {
      ProgramGatheredSound(rows, cols, x);
    }
    if exists i :: ProgramOfRow(rows, cols, i, x) {
      var i :| ProgramOfRow(rows, cols, i, x);
      ProgramGatheredComplete(rows, cols, x, i);
    }
  }

  /** A gathered program comes from some row's first usable program column. */
  lemma ProgramGatheredSound(rows: seq<Row>, cols: seq<string>, x: string)
    requires x in UnionOf(rows, ProgramOf(cols))
    ensures exists i :: ProgramOfRow(rows, cols, i, x)
  {
    UnionOfSound(rows, ProgramOf(cols), x);
    var i :| 0 <= i < |rows| && x in ProgramOf(cols)(rows[i]);
    assert ProgramOfRow(rows, cols, i, x);
  }

  /** Every piece of every row's first usable program column is gathered. */
  lemma ProgramGatheredComplete(rows: seq<Row>, cols: seq<string>, x: string, i: int)
    requires ProgramOfRow(rows, cols, i, x)
    ensures x in UnionOf(rows, ProgramOf(cols))
  {
    assert x in ProgramOf(cols)(rows[i]);
    UnionOfComplete(rows, ProgramOf(cols), x, i);
  }

  /** A program is listed exactly when it is a piece of some row's first
      usable program column. */
  lemma ProgramListed(rows: seq<Row>, x: string)
    ensures x in PlacementListsOf(rows).programs <==> exists i :: ProgramOfRow(rows, ProgramColumns, i, x)
  {
    ProgramsGathered(rows, ProgramColumns, x);
  }

  /** Column `c` of row `i` is usable and has `x` among its pieces. */
  predicate PieceOfColumn(rows: seq<Row>, cols: seq<string>, i: int, c: int, x: string)
  {
    0 <= i < |rows| && 0 <= c < |cols| && Usable(rows[i], cols[c]) && x in CellPieces(rows[i][cols[c]])
  }

  /** A piece gathered over rows and columns comes from some usable column
      of some row, and was not dropped. */
  lemma GatheredSound(rows: seq<Row>, cols: seq<string>, drop: string -> bool, x: string)
    requires x in UnionOf(rows, ColumnsOf(cols, drop))
    ensures !drop(x)
    ensures exists i, c :: PieceOfColumn(rows, cols, i, c, x)
  {
    UnionOfSound(rows, ColumnsOf(cols, drop), x);
    var i :| 0 <= i < |rows| && x in ColumnsOf(cols, drop)(rows[i]);
    UnionOfSound(cols, CellOf(rows[i], drop), x);
    var c :| 0 <= c < |cols| && x in CellOf(rows[i], drop)(cols[c]);
    assert PieceOfColumn(rows, cols, i, c, x);
  }

  /** Every kept piece of every usable column of every row is gathered. */
  lemma GatheredComplete(rows: seq<Row>, cols: seq<string>, drop: string -> bool, x: string, i: int, c: int)
    requires PieceOfColumn(rows, cols, i, c, x) && !drop(x)
    ensures x in UnionOf(rows, ColumnsOf(cols, drop))
  {
    UnionOfComplete(cols, CellOf(rows[i], drop), x, c);
    UnionOfComplete(rows, ColumnsOf(cols, drop), x, i);
  }

  /** A recruiter is listed exactly when it is a piece of some usable
      recruiter column of some row, from every such column, and carries no
      batch token. */
  lemma RecruiterListed(rows: seq<Row>, x: string)
    ensures x in PlacementListsOf(rows).topRecruiters <==>
      !HasBatchToken(x) && exists i, c :: PieceOfColumn(rows, RecruiterColumns, i, c, x)
  {
    if rows != [] {
      if x in PlacementListsOf(rows).topRecruiters {
        GatheredSound(rows, RecruiterColumns, HasBatchToken, x);
      }
      if !HasBatchToken(x) && exists i, c :: PieceOfColumn(rows, RecruiterColumns, i, c, x) {
        var i, c :| PieceOfColumn(rows, RecruiterColumns, i, c, x);
        CellPieceClean(rows[i][RecruiterColumns[c]], x);
        GatheredComplete(rows, RecruiterColumns, HasBatchToken, x, i, c);
      }
    }
  }

  /** A job profile is listed exactly when it is a piece of some usable job
      column of some row; batch tokens are not filtered here. */
  lemma ProfileListed(rows: seq<Row>, x: string)
    ensures x in PlacementListsOf(rows).jobProfiles <==>
      exists i, c :: PieceOfColumn(rows, JobColumns, i, c, x)
  {
    if rows != [] {
      if x in PlacementListsOf(rows).jobProfiles {
        GatheredSound(rows, JobColumns, DropsNothing, x);
      }
      if exists i, c :: PieceOfColumn(rows, JobColumns, i, c, x) {
        var i, c :| PieceOfColumn(rows, JobColumns, i, c, x);
        CellPieceClean(rows[i][JobColumns[c]], x);
        GatheredComplete(rows, JobColumns, DropsNothing, x, i, c);
      }
    }
  }
}
