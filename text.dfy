/** String operations the Python code gets from `str` and `re`: `strip`,
    `lower`, the `in` operator, `re.split` on a character class, `str.split()`
    on whitespace, and the code-point order `sorted` uses. Characters are
    treated as ASCII: Unicode case mapping and non-ASCII whitespace are not
    modelled. */
module Text {
  import opened Seqs

  /** Python's `str.isspace` restricted to ASCII (also what `\s` and
      `str.split()` treat as whitespace). */
  predicate IsSpace(c: char)
  {
    c == ' ' || (9 <= c as int <= 13) || (28 <= c as int <= 31)
  }

  predicate IsUpper(c: char) { 'A' <= c <= 'Z' }

  predicate IsDigit(c: char) { '0' <= c <= '9' }

  function LowerChar(c: char): char
  {
    if IsUpper(c) then (c as int + 32) as char else c
  }

  /** `str.lower()` on ASCII letters. */
  function Lower(s: string): (r: string)
    ensures |r| == |s|
    ensures forall i :: 0 <= i < |s| ==> r[i] == LowerChar(s[i])
  {
    if s == [] then [] else [LowerChar(s[0])] + Lower(s[1..])
  }

  /** Lower-casing leaves no upper-case letter and keeps whitespace as it is. */
  lemma LowerFacts(s: string)
    ensures forall i :: 0 <= i < |s| ==> !IsUpper(Lower(s)[i])
    ensures forall i :: 0 <= i < |s| ==> (IsSpace(Lower(s)[i]) <==> IsSpace(s[i]))
  {
    forall i | 0 <= i < |s|
      ensures !IsUpper(Lower(s)[i]) && (IsSpace(Lower(s)[i]) <==> IsSpace(s[i]))
    {
      LowerCharFacts(s[i]);
    }
  }

  /** Lower-casing text without upper-case letters changes nothing. */
  lemma LowerNoUpper(s: string)
    requires forall i :: 0 <= i < |s| ==> !IsUpper(s[i])
    ensures Lower(s) == s
  {
    assert forall i :: 0 <= i < |s| ==> Lower(s)[i] == s[i];
  }

  lemma LowerCharFacts(c: char)
    ensures !IsUpper(LowerChar(c))
    ensures IsSpace(LowerChar(c)) <==> IsSpace(c)
  {
  }

  /** `str.lstrip()`: drops leading whitespace. */
  function StripLeft(s: string): (r: string)
    ensures |r| <= |s| && r == s[|s| - |r|..]
    ensures r == [] || !IsSpace(r[0])
    ensures forall i :: 0 <= i < |s| - |r| ==> IsSpace(s[i])
  {
    if s != [] && IsSpace(s[0]) then StripLeft(s[1..]) else s
  }

  /** `str.rstrip()`: drops trailing whitespace. */
  function StripRight(s: string): (r: string)
    ensures |r| <= |s| && r == s[..|r|]
    ensures r == [] || !IsSpace(r[|r| - 1])
    ensures forall i :: |r| <= i < |s| ==> IsSpace(s[i])
  {
    if s != [] && IsSpace(s[|s| - 1]) then StripRight(s[..|s| - 1]) else s
  }

  /** `str.strip()`: the slice of `s` left after removing whitespace at both
      ends; everything removed is whitespace and nothing kept starts or ends
      with it. */
  function Strip(s: string): (r: string)
    ensures r == [] || (!IsSpace(r[0]) && !IsSpace(r[|r| - 1]))
  {
    StripRight(StripLeft(s))
  }

  /** `r` is `s[i..i + |r|]` and everything of `s` outside it is whitespace. */
  predicate TrimmedSliceAt(s: string, r: string, i: int)
  {
    && 0 <= i <= i + |r| <= |s| && r == s[i..i + |r|]
    && (forall k :: 0 <= k < i ==> IsSpace(s[k]))
    && (forall k :: i + |r| <= k < |s| ==> IsSpace(s[k]))
  }

  /** A string with no whitespace at either end strips to itself. */
  lemma StripStripped(s: string)
    requires s == [] || (!IsSpace(s[0]) && !IsSpace(s[|s| - 1]))
    ensures Strip(s) == s
  {
  }

  /** Python's `sub in s`. */
  predicate Contains(s: string, sub: string)
  {
    sub <= s || (s != [] && Contains(s[1..], sub))
  }

  /** `sub` occurs in `s` at offset `i`. */
  predicate OccursAt(s: string, sub: string, i: int)
  {
    0 <= i <= |s| - |sub| && s[i..i + |sub|] == sub
  }

  /** `sub in s` holds exactly when `sub` occurs at some offset of `s`. */
  lemma {:induction false} ContainsAt(s: string, sub: string)
    ensures Contains(s, sub) <==> exists i :: OccursAt(s, sub, i)
  {
    if sub <= s {
      assert OccursAt(s, sub, 0);
    } else if s != [] {
      ContainsAt(s[1..], sub);
      if exists i :: OccursAt(s, sub, i) {
        var i :| OccursAt(s, sub, i);
        assert i != 0;
        assert OccursAt(s[1..], sub, i - 1);
      }
      if Contains(s[1..], sub) {
        var i :| OccursAt(s[1..], sub, i);
        assert OccursAt(s, sub, i + 1);
      }
    }
  }

  /** Every string contains itself, so an exact match is also a substring match. */
  lemma ContainsSelf(s: string)
    ensures Contains(s, s)
  {
  }

  /** `re.split` on a one-character class: the pieces between separators,
      empty pieces included. */
  function SplitAny(s: string, isSep: char -> bool): (r: seq<string>)
    ensures |r| >= 1
    ensures forall k, i :: 0 <= k < |r| && 0 <= i < |r[k]| ==> !isSep(r[k][i])
  {
    if s == [] then [""]
    else
      var rest := SplitAny(s[1..], isSep);
      if isSep(s[0]) then [""] + rest
      else
        assert forall i :: 1 <= i < |[s[0]] + rest[0]| ==> ([s[0]] + rest[0])[i] == rest[0][i - 1];
        [[s[0]] + rest[0]] + rest[1..]
  }

  function Concat(pieces: seq<string>): string
  {
    if pieces == [] then "" else pieces[0] + Concat(pieces[1..])
  }

  /** `s` with its separator characters deleted. */
  function RemoveSeps(s: string, isSep: char -> bool): string
  {
    if s == [] then "" else (if isSep(s[0]) then "" else [s[0]]) + RemoveSeps(s[1..], isSep)
  }

  function CountSeps(s: string, isSep: char -> bool): nat
  {
    if s == [] then 0 else (if isSep(s[0]) then 1 else 0) + CountSeps(s[1..], isSep)
  }

  /** Splitting loses only the separators: the pieces, concatenated, give back
      the text without them, and there is one more piece than separators. */
  lemma {:induction false} SplitAnyRoundTrip(s: string, isSep: char -> bool)
    ensures Concat(SplitAny(s, isSep)) == RemoveSeps(s, isSep)
    ensures |SplitAny(s, isSep)| == CountSeps(s, isSep) + 1
  {
    if s != [] {
      SplitAnyRoundTrip(s[1..], isSep);
      var rest := SplitAny(s[1..], isSep);
      if !isSep(s[0]) {
        var r := [[s[0]] + rest[0]] + rest[1..];
        assert r[1..] == rest[1..];
        assert rest == [rest[0]] + rest[1..];
        assert Concat(rest) == rest[0] + Concat(rest[1..]);
      }
    }
  }

  /** `sep.join(pieces)` */
  function Join(pieces: seq<string>, sep: char): string
  {
    if pieces == [] then ""
    else if |pieces| == 1 then pieces[0]
    else pieces[0] + [sep] + Join(pieces[1..], sep)
  }

  /** Text with no separator in it splits into itself alone. */
  lemma {:induction false} SplitNoSep(s: string, isSep: char -> bool)
    requires forall i :: 0 <= i < |s| ==> !isSep(s[i])
    ensures SplitAny(s, isSep) == [s]
  {
    if s != [] {
      SplitNoSep(s[1..], isSep);
      assert [s[0]] + s[1..] == s;
    }
  }

  /** A separator ends the piece before it. */
  lemma {:induction false} SplitAfterPiece(a: string, c: char, b: string, isSep: char -> bool)
    requires forall i :: 0 <= i < |a| ==> !isSep(a[i])
    requires isSep(c)
    ensures SplitAny(a + [c] + b, isSep) == [a] + SplitAny(b, isSep)
  {
    var s := a + [c] + b;
    if a == [] {
      assert s == [c] + b;
      assert s[1..] == b;
    } else {
      var a' := a[1..];
      assert s[0] == a[0];
      assert s[1..] == a' + [c] + b;
      SplitAfterPiece(a', c, b, isSep);
      var rest := SplitAny(s[1..], isSep);
      assert rest == [a'] + SplitAny(b, isSep);
      assert [a[0]] + a' == a;
    }
  }

  /** Splitting joined pieces on the separator gives the pieces back,
      provided no piece contains a separator. */
  lemma {:induction false} SplitJoin(pieces: seq<string>, sep: char, isSep: char -> bool)
    requires pieces != []
    requires forall k, i :: 0 <= k < |pieces| && 0 <= i < |pieces[k]| ==> !isSep(pieces[k][i])
    requires isSep(sep)
    ensures SplitAny(Join(pieces, sep), isSep) == pieces
  {
    if |pieces| == 1 {
      SplitNoSep(pieces[0], isSep);
    } else {
      var rest := pieces[1..];
      assert forall k, i :: 0 <= k < |rest| && 0 <= i < |rest[k]| ==> !isSep(rest[k][i]) by {
        forall k, i | 0 <= k < |rest| && 0 <= i < |rest[k]| ensures !isSep(rest[k][i]) {
          assert rest[k] == pieces[k + 1];
        }
      }
      SplitJoin(rest, sep, isSep);
      assert forall i :: 0 <= i < |pieces[0]| ==> !isSep(pieces[0][i]) by {
        forall i | 0 <= i < |pieces[0]| ensures !isSep(pieces[0][i]) {
          assert 0 < |pieces|;
        }
      }
      SplitAfterPiece(pieces[0], sep, Join(rest, sep), isSep);
      assert [pieces[0]] + rest == pieces;
    }
  }

  /** `str.split()` with no argument: maximal runs of non-whitespace. */
  function Words(s: string): (r: seq<string>)
    ensures forall k :: 0 <= k < |r| ==> r[k] != "" && forall i :: 0 <= i < |r[k]| ==> !IsSpace(r[k][i])
  {
    FilterIn(SplitAny(s, IsSpace), NonEmpty);
    Filter(SplitAny(s, IsSpace), NonEmpty)
  }

  predicate NonEmpty(s: string) { s != "" }

  /** The stripped, non-blank pieces of a list of texts, as a set. */
  function PiecesOf(parts: seq<string>): (r: set<string>)
    ensures "" !in r
  {
    if parts == [] then {}
    else
      var p := Strip(parts[|parts| - 1]);
      PiecesOf(parts[..|parts| - 1]) + (if p != "" then {p} else {})
  }

  /** Text `k` of the list strips to `y`. */
  predicate StripsTo(parts: seq<string>, k: int, y: string)
  {
    0 <= k < |parts| && Strip(parts[k]) == y
  }

  /** Every piece is a non-blank stripped text of the list. */
  lemma {:induction false} PiecesOfSound(parts: seq<string>, y: string)
    requires y in PiecesOf(parts)
    ensures y != "" && exists k :: StripsTo(parts, k, y)
  {
    var init := parts[..|parts| - 1];
    var last := |parts| - 1;
    var p := Strip(parts[last]);
    assert PiecesOf(parts) == PiecesOf(init) + (if p != "" then {p} else {});
    if y in PiecesOf(init) {
      PiecesOfSound(init, y);
      var k :| StripsTo(init, k, y);
      assert parts[k] == init[k];
      assert StripsTo(parts, k, y);
    } else {
      assert StripsTo(parts, last, y);
    }
  }

  /** Every non-blank stripped text of the list is a piece. */
  lemma {:induction false} PiecesOfComplete(parts: seq<string>, y: string, k: int)
    requires y != "" && StripsTo(parts, k, y)
    ensures y in PiecesOf(parts)
  {
    var init := parts[..|parts| - 1];
    if k < |init| {
      assert parts[k] == init[k];
      PiecesOfComplete(init, y, k);
    }
  }

  lemma PiecesOfSnoc(parts: seq<string>, j: int)
    requires 0 <= j < |parts|
    ensures PiecesOf(parts[..j + 1]) ==
            PiecesOf(parts[..j]) + (if Strip(parts[j]) != "" then {Strip(parts[j])} else {})
  {
    assert parts[..j + 1][..j] == parts[..j];
  }

  /** The first piece of a split is a prefix of the text. */
  lemma {:induction false} SplitAnyFirst(s: string, isSep: char -> bool)
    ensures SplitAny(s, isSep)[0] <= s
  {
    if s != [] && !isSep(s[0]) {
      SplitAnyFirst(s[1..], isSep);
      assert s == [s[0]] + s[1..];
    }
  }

  /** Every piece of a split is a slice of the text. */
  lemma {:induction false} SplitAnySlices(s: string, isSep: char -> bool, k: int)
    requires 0 <= k < |SplitAny(s, isSep)|
    ensures exists j :: OccursAt(s, SplitAny(s, isSep)[k], j)
  {
    var r := SplitAny(s, isSep);
    if s == [] || k == 0 {
      SplitAnyFirst(s, isSep);
      assert OccursAt(s, r[0], 0);
    } else {
      var rest := SplitAny(s[1..], isSep);
      var k' := if isSep(s[0]) then k - 1 else k;
      assert r[k] == rest[k'];
      SplitAnySlices(s[1..], isSep, k');
      var j :| OccursAt(s[1..], rest[k'], j);
      assert OccursAt(s, r[k], j + 1);
    }
  }

  /** Stripping twice strips nothing more, and the stripped text occurs in
      the original. */
  lemma StripFacts(s: string)
    ensures Strip(Strip(s)) == Strip(s)
    ensures TrimmedSliceAt(s, Strip(s), |s| - |StripLeft(s)|)
    ensures OccursAt(s, Strip(s), |s| - |StripLeft(s)|)
  {
    StripSlice(s);
    StripStripped(Strip(s));
  }

  lemma StripSlice(s: string)
    ensures TrimmedSliceAt(s, Strip(s), |s| - |StripLeft(s)|)
  {
    var l := StripLeft(s);
    var r := StripRight(l);
    assert r == s[|s| - |l|..][..|r|];
  }

  /** A slice of a slice is a slice. */
  lemma OccursWithin(s: string, a: string, b: string, j: int, i: int)
    requires OccursAt(s, a, j) && OccursAt(a, b, i)
    ensures OccursAt(s, b, j + i)
  {
    forall m | 0 <= m < |b| ensures s[j + i + m] == b[m] {
      assert b[m] == a[i + m] == s[j + i + m];
    }
  }

  /** Stripping keeps a property every character has. */
  lemma StripKeeps(s: string, p: char -> bool)
    requires forall m :: 0 <= m < |s| ==> p(s[m])
    ensures forall m :: 0 <= m < |Strip(s)| ==> p(Strip(s)[m])
  {
    var i := |s| - |StripLeft(s)|;
    var r := Strip(s);
    StripSlice(s);
    forall m | 0 <= m < |r| ensures p(r[m]) {
      assert r[m] == s[i + m];
    }
  }

  /** A stripped piece of a split occurs in the text. */
  lemma StrippedPieceOccurs(s: string, isSep: char -> bool, k: int)
    requires 0 <= k < |SplitAny(s, isSep)|
    ensures exists i :: OccursAt(s, Strip(SplitAny(s, isSep)[k]), i)
  {
    var part := SplitAny(s, isSep)[k];
    StripFacts(part);
    SplitAnySlices(s, isSep, k);
    var j :| OccursAt(s, part, j);
    OccursWithin(s, part, Strip(part), j, |part| - |StripLeft(part)|);
  }

  /** Every piece of a split text is non-blank, stripped, free of
      separators, and occurs in the text. */
  lemma SplitPieceClean(s: string, isSep: char -> bool, y: string)
    requires y in PiecesOf(SplitAny(s, isSep))
    ensures y != "" && Strip(y) == y
    ensures forall m :: 0 <= m < |y| ==> !isSep(y[m])
    ensures exists i :: OccursAt(s, y, i)
  {
    var parts := SplitAny(s, isSep);
    PiecesOfSound(parts, y);
    var k :| StripsTo(parts, k, y);
    StripFacts(parts[k]);
    StripKeeps(parts[k], (c: char) => !isSep(c));
    StrippedPieceOccurs(s, isSep, k);
  }

  /** A property every character of `s` has is kept by every piece of a
      split of `s`. */
  lemma {:induction false} SplitAnyKeeps(s: string, isSep: char -> bool, p: char -> bool)
    requires forall i :: 0 <= i < |s| ==> p(s[i])
    ensures forall k, i :: 0 <= k < |SplitAny(s, isSep)| && 0 <= i < |SplitAny(s, isSep)[k]| ==>
      p(SplitAny(s, isSep)[k][i])
  {
    if s != [] {
      SplitAnyKeeps(s[1..], isSep, p);
      var rest := SplitAny(s[1..], isSep);
      var r := SplitAny(s, isSep);
      if !isSep(s[0]) {
        assert r == [[s[0]] + rest[0]] + rest[1..];
        forall k, i | 0 <= k < |r| && 0 <= i < |r[k]| ensures p(r[k][i]) {
          if k == 0 {
            if i > 0 {
              assert r[0][i] == rest[0][i - 1];
            }
          } else {
            assert r[k] == rest[k];
          }
        }
      } else {
        assert r == [""] + rest;
        forall k, i | 0 <= k < |r| && 0 <= i < |r[k]| ensures p(r[k][i]) {
          assert r[k] == rest[k - 1];
        }
      }
    }
  }

  /** A property every character of `s` has is kept by every word of `s`. */
  lemma WordsKeep(s: string, p: char -> bool)
    requires forall i :: 0 <= i < |s| ==> p(s[i])
    ensures forall k, i :: 0 <= k < |Words(s)| && 0 <= i < |Words(s)[k]| ==> p(Words(s)[k][i])
  {
    var pieces := SplitAny(s, IsSpace);
    SplitAnyKeeps(s, IsSpace, p);
    FilterIn(pieces, NonEmpty);
    forall k, i | 0 <= k < |Words(s)| && 0 <= i < |Words(s)[k]| ensures p(Words(s)[k][i]) {
      var j :| 0 <= j < |pieces| && pieces[j] == Words(s)[k];
      assert p(pieces[j][i]);
    }
  }

  /** Python's `a <= b` on `str`: lexicographic by code point. */
  predicate LexLe(a: string, b: string)
  {
    if a == [] then true
    else if b == [] then false
    else if a[0] != b[0] then a[0] < b[0]
    else LexLe(a[1..], b[1..])
  }

  lemma {:induction false} LexLeTotal(a: string, b: string)
    ensures LexLe(a, b) || LexLe(b, a)
  {
    if a != [] && b != [] && a[0] == b[0] {
      LexLeTotal(a[1..], b[1..]);
    }
  }

  lemma {:induction false} LexLeTransitive(a: string, b: string, c: string)
    requires LexLe(a, b) && LexLe(b, c)
    ensures LexLe(a, c)
  {
    if a != [] && b != [] && c != [] && a[0] == b[0] && b[0] == c[0] {
      LexLeTransitive(a[1..], b[1..], c[1..]);
    }
  }

  lemma {:induction false} LexLeAntisymmetric(a: string, b: string)
    requires LexLe(a, b) && LexLe(b, a)
    ensures a == b
  {
    if a != [] && b != [] {
      LexLeAntisymmetric(a[1..], b[1..]);
      assert a == [a[0]] + a[1..] && b == [b[0]] + b[1..];
    }
  }

  /** Code-point order on strings is a total preorder (and antisymmetric). */
  lemma LexLeTotalPreorder()
    ensures TotalPreorder(LexLe)
  {
    forall a, b ensures LexLe(a, b) || LexLe(b, a) {
      LexLeTotal(a, b);
    }
    forall a, b, c | LexLe(a, b) && LexLe(b, c) ensures LexLe(a, c) {
      LexLeTransitive(a, b, c);
    }
  }

  /** Code-point order on strings is a total order. */
  lemma LexLeTotalOrder()
    ensures TotalOrder(LexLe)
  {
    LexLeTotalPreorder();
    forall a, b | LexLe(a, b) && LexLe(b, a) ensures a == b {
      LexLeAntisymmetric(a, b);
    }
  }

  /** Strictly increasing in code-point order: sorted and duplicate-free. */
  predicate StrictlySorted(s: seq<string>)
  {
    SortedBy(s, LexLe) && Distinct(s)
  }

  /** `sorted(a_set)` on strings. */
  function SortedItems(s: set<string>): (r: seq<string>)
    ensures StrictlySorted(r)
    ensures forall x :: x in r <==> x in s
    ensures |r| == |s|
  {
    LexLeTotalOrder();
    SortSetSpec(s, LexLe);
    SortSet(s, LexLe)
  }
}
