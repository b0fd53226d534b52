/** Sequence helpers shared by the table operations: an Option type for
    nullable cells, order-preserving row selection (a boolean mask applied to
    a frame), a stable insertion sort for `sort_values`, and `head(n)`. */
module Seqs {

  datatype Option<T> = None | Some(value: T)

  /** The elements of `s` that satisfy `p`, in their original order
      (`df[mask]` on a frame). */
  function Filter<T>(s: seq<T>, p: T -> bool): (r: seq<T>)
    ensures |r| <= |s|
    ensures forall i :: 0 <= i < |r| ==> p(r[i])
  {
    if s == [] then []
    else
      assert s == [s[0]] + s[1..];
      (if p(s[0]) then [s[0]] else []) + Filter(s[1..], p)
  }

  /** An element is selected exactly when it occurs and passes the mask;
      every selected position holds an element of the input. */
  lemma {:induction false} FilterIn<T>(s: seq<T>, p: T -> bool)
    ensures forall x :: x in Filter(s, p) <==> x in s && p(x)
    ensures forall i :: 0 <= i < |Filter(s, p)| ==> Filter(s, p)[i] in s
  {
    if s != [] {
      FilterIn(s[1..], p);
      assert s == [s[0]] + s[1..];
      var r := Filter(s, p);
      var rest := Filter(s[1..], p);
      assert r == (if p(s[0]) then [s[0]] else []) + rest;
      forall i | 0 <= i < |r| ensures r[i] in s {
        if !(p(s[0]) && i == 0) {
          var k := if p(s[0]) then i - 1 else i;
          assert r[i] == rest[k];
          assert rest[k] in s[1..];
        }
      }
    }
  }

  /** A selection is empty exactly when no element passes the mask. */
  lemma {:induction false} FilterEmpty<T>(s: seq<T>, p: T -> bool)
    ensures Filter(s, p) == [] <==> forall i :: 0 <= i < |s| ==> !p(s[i])
  {
    if s != [] {
      FilterEmpty(s[1..], p);
      assert Filter(s, p) == (if p(s[0]) then [s[0]] else []) + Filter(s[1..], p);
      assert forall i :: 1 <= i < |s| ==> s[i] == s[1..][i - 1];
    }
  }

  /** Selecting with a weaker mask keeps at least what a stronger mask keeps. */
  lemma {:induction false} FilterMonotone<T>(s: seq<T>, p: T -> bool, q: T -> bool)
    requires forall i :: 0 <= i < |s| && p(s[i]) ==> q(s[i])
    ensures |Filter(s, p)| <= |Filter(s, q)|
  {
    if s != [] {
      FilterMonotone(s[1..], p, q);
    }
  }

  /** Selecting from a sequence extended by one element: what a loop over
      the rows builds step by step. */
  lemma {:induction false} FilterSnoc<T>(s: seq<T>, x: T, p: T -> bool)
    ensures Filter(s + [x], p) == Filter(s, p) + (if p(x) then [x] else [])
  {
    var tail := if p(x) then [x] else [];
    if s != [] {
      var head := if p(s[0]) then [s[0]] else [];
      assert (s + [x])[1..] == s[1..] + [x];
      assert Filter(s + [x], p) == head + Filter(s[1..] + [x], p);
      FilterSnoc(s[1..], x, p);
      assert Filter(s + [x], p) == head + (Filter(s[1..], p) + tail);
      assert Filter(s, p) == head + Filter(s[1..], p);
    } else {
      assert s + [x] == [x];
      assert [x][1..] == [];
      assert Filter([x], p) == tail + Filter([], p);
    }
  }

  /** A selection from a sorted sequence is sorted. */
  lemma {:induction false} FilterSorted<T>(s: seq<T>, p: T -> bool, le: (T, T) -> bool)
    requires SortedBy(s, le)
    ensures SortedBy(Filter(s, p), le)
  {
    if s != [] {
      var t := s[1..];
      assert SortedBy(t, le) by {
        forall i, j | 0 <= i < j < |t| ensures le(t[i], t[j]) {
          assert t[i] == s[i + 1] && t[j] == s[j + 1];
        }
      }
      FilterSorted(t, p, le);
      FilterIn(t, p);
      var rest := Filter(t, p);
      assert forall x :: x in t ==> le(s[0], x);
      if p(s[0]) {
        var r := [s[0]] + rest;
        forall i, j | 0 <= i < j < |r| ensures le(r[i], r[j]) {
          if i == 0 {
            assert r[j] == rest[j - 1];
            assert rest[j - 1] in t;
          } else {
            assert r[i] == rest[i - 1] && r[j] == rest[j - 1];
          }
        }
      }
    }
  }

  /** `f` applied to every element, in order. */
  function Map<T, U>(xs: seq<T>, f: T -> U): (ys: seq<U>)
    ensures |ys| == |xs|
    ensures forall k :: 0 <= k < |xs| ==> ys[k] == f(xs[k])
  {
    seq(|xs|, k requires 0 <= k < |xs| => f(xs[k]))
  }

  /** `head(n)`: the first `n` elements, or all of them when there are fewer. */
  function Take<T>(s: seq<T>, n: nat): (r: seq<T>)
    ensures |r| == if |s| < n then |s| else n
    ensures r <= s
  {
    if |s| <= n then s else s[..n]
  }

  /** A prefix holds no element more often than the whole sequence. */
  lemma TakeSubMultiset<T>(s: seq<T>, n: nat)
    ensures multiset(Take(s, n)) <= multiset(s)
  {
    if n < |s| {
      assert s == s[..n] + s[n..];
    }
  }

  /** `le` is a total preorder: any two elements compare, and comparison chains. */
  ghost predicate TotalPreorder<T(!new)>(le: (T, T) -> bool)
  {
    && (forall a, b :: le(a, b) || le(b, a))
    && (forall a, b, c :: le(a, b) && le(b, c) ==> le(a, c))
  }

  /** Every earlier element is `le` every later one. */
  predicate SortedBy<T>(s: seq<T>, le: (T, T) -> bool)
  {
    forall i, j :: 0 <= i < j < |s| ==> le(s[i], s[j])
  }

  /** Puts `x` in front of the first element it is `le` to. */
  function Insert<T>(x: T, s: seq<T>, le: (T, T) -> bool): (r: seq<T>)
    ensures |r| == |s| + 1
  {
    if s == [] || le(x, s[0]) then [x] + s
    else
      assert s == [s[0]] + s[1..];
      [s[0]] + Insert(x, s[1..], le)
  }

  /** Inserting adds `x` and loses nothing. */
  lemma {:induction false} InsertPermutes<T>(x: T, s: seq<T>, le: (T, T) -> bool)
    ensures multiset(Insert(x, s, le)) == multiset(s) + multiset{x}
  {
    if !(s == [] || le(x, s[0])) {
      InsertPermutes(x, s[1..], le);
      assert s == [s[0]] + s[1..];
    }
  }

  lemma {:induction false} InsertSorted<T(!new)>(x: T, s: seq<T>, le: (T, T) -> bool)
    requires TotalPreorder(le)
    requires SortedBy(s, le)
    ensures SortedBy(Insert(x, s, le), le)
  {
    if s == [] || le(x, s[0]) {
      var r := [x] + s;
      forall i, j | 0 <= i < j < |r| ensures le(r[i], r[j]) {
        if i == 0 {
          assert r[j] == s[j - 1];
          if j > 1 { assert le(s[0], s[j - 1]); }
        } else {
          assert le(s[i - 1], s[j - 1]);
        }
      }
    } else {
      InsertSorted(x, s[1..], le);
      InsertPermutes(x, s[1..], le);
      var t := Insert(x, s[1..], le);
      var r := [s[0]] + t;
      assert le(s[0], x);
      forall i, j | 0 <= i < j < |r| ensures le(r[i], r[j]) {
        if i == 0 {
          assert r[j] in multiset(t);
          assert r[j] in multiset(s[1..]) + multiset{x};
          if r[j] != x {
            assert r[j] in s[1..];
            var k :| 0 <= k < |s[1..]| && s[1..][k] == r[j];
            assert le(s[0], s[k + 1]);
          }
        } else {
          assert le(t[i - 1], t[j - 1]);
        }
      }
    }
  }

  /** A stable insertion sort: `sort_values` on one key or a key tuple. */
  function SortBy<T>(s: seq<T>, le: (T, T) -> bool): (r: seq<T>)
    ensures |r| == |s|
  {
    if s == [] then []
    else
      assert s == [s[0]] + s[1..];
      Insert(s[0], SortBy(s[1..], le), le)
  }

  /** The sort only permutes its input. */
  lemma {:induction false} SortByPermutes<T>(s: seq<T>, le: (T, T) -> bool)
    ensures multiset(SortBy(s, le)) == multiset(s)
  {
    if s != [] {
      SortByPermutes(s[1..], le);
      InsertPermutes(s[0], SortBy(s[1..], le), le);
      assert s == [s[0]] + s[1..];
    }
  }

  /** Under a total preorder the sort orders its output. */
  lemma {:induction false} SortBySorted<T(!new)>(s: seq<T>, le: (T, T) -> bool)
    requires TotalPreorder(le)
    ensures SortedBy(SortBy(s, le), le)
  {
    if s != [] {
      SortBySorted(s[1..], le);
      InsertSorted(s[0], SortBy(s[1..], le), le);
    }
  }

  /** `le` is moreover antisymmetric: a total order. */
  ghost predicate TotalOrder<T(!new)>(le: (T, T) -> bool)
  {
    TotalPreorder(le) && forall a, b :: le(a, b) && le(b, a) ==> a == b
  }

  /** No element occurs twice. */
  predicate Distinct<T(==)>(s: seq<T>)
  {
    forall i, j :: 0 <= i < j < |s| ==> s[i] != s[j]
  }

  /** The tail of a sorted sequence is sorted and follows its head. */
  lemma TailSorted<T>(s: seq<T>, le: (T, T) -> bool)
    requires s != [] && SortedBy(s, le)
    ensures SortedBy(s[1..], le)
    ensures forall j :: 0 <= j < |s[1..]| ==> le(s[0], s[1..][j])
  {
    var t := s[1..];
    forall i, j | 0 <= i < j < |t| ensures le(t[i], t[j]) {
      assert t[i] == s[i + 1] && t[j] == s[j + 1];
    }
    forall j | 0 <= j < |t| ensures le(s[0], t[j]) {
      assert t[j] == s[j + 1];
    }
  }

  /** `drop_duplicates(keep='first')` by `key`: scanning left to right, an
      element is kept when no earlier element (nor `seen`) had its key. */
  function KeepFirst<T, K(==)>(s: seq<T>, key: T -> K, seen: set<K>): (r: seq<T>)
    ensures |r| <= |s|
    ensures forall i :: 0 <= i < |r| ==> r[i] in s && key(r[i]) !in seen
    ensures forall i, j :: 0 <= i < j < |r| ==> key(r[i]) != key(r[j])
  {
    if s == [] then []
    else
      var k := key(s[0]);
      if k in seen then KeepFirst(s[1..], key, seen)
      else [s[0]] + KeepFirst(s[1..], key, seen + {k})
  }

  /** Every key of the input not in `seen` keeps an element. */
  lemma {:induction false} KeepFirstCovers<T, K>(s: seq<T>, key: T -> K, seen: set<K>, x: T)
    requires x in s && key(x) !in seen
    ensures exists i :: 0 <= i < |KeepFirst(s, key, seen)| && key(KeepFirst(s, key, seen)[i]) == key(x)
  {
    var k := key(s[0]);
    var r := KeepFirst(s, key, seen);
    if x == s[0] {
      assert key(r[0]) == key(x);
    } else {
      assert x in s[1..];
      if k in seen {
        KeepFirstCovers(s[1..], key, seen, x);
      } else if key(x) == k {
        assert key(r[0]) == key(x);
      } else {
        var rest := KeepFirst(s[1..], key, seen + {k});
        KeepFirstCovers(s[1..], key, seen + {k}, x);
        var i :| 0 <= i < |rest| && key(rest[i]) == key(x);
        assert r[i + 1] == rest[i];
      }
    }
  }

  /** On input sorted by `le`, the kept elements stay sorted. */
  lemma {:induction false} KeepFirstSorted<T, K>(s: seq<T>, key: T -> K, seen: set<K>, le: (T, T) -> bool)
    requires SortedBy(s, le)
    ensures SortedBy(KeepFirst(s, key, seen), le)
  {
    if s != [] {
      var k := key(s[0]);
      var t := s[1..];
      TailSorted(s, le);
      if k in seen {
        KeepFirstSorted(t, key, seen, le);
      } else {
        KeepFirstSorted(t, key, seen + {k}, le);
        var rest := KeepFirst(t, key, seen + {k});
        var r := [s[0]] + rest;
        forall i, j | 0 <= i < j < |r| ensures le(r[i], r[j]) {
          if i == 0 {
            assert r[j] == rest[j - 1] && rest[j - 1] in t;
          } else {
            assert r[i] == rest[i - 1] && r[j] == rest[j - 1];
          }
        }
      }
    }
  }

  /** On input sorted by a total preorder `le`, each kept element comes no
      later in `le` than any element sharing its key: the best element of
      each key survives. */
  lemma {:induction false} KeepFirstBest<T(!new), K>(s: seq<T>, key: T -> K, seen: set<K>, le: (T, T) -> bool)
    requires TotalPreorder(le) && SortedBy(s, le)
    ensures forall i, j :: 0 <= i < |KeepFirst(s, key, seen)| && 0 <= j < |s|
                           && key(s[j]) == key(KeepFirst(s, key, seen)[i])
                           ==> le(KeepFirst(s, key, seen)[i], s[j])
  {
    if s != [] {
      var k := key(s[0]);
      var t := s[1..];
      TailSorted(s, le);
      var r := KeepFirst(s, key, seen);
      if k in seen {
        KeepFirstBest(t, key, seen, le);
        assert r == KeepFirst(t, key, seen);
        forall i, j | 0 <= i < |r| && 0 <= j < |s| && key(s[j]) == key(r[i])
          ensures le(r[i], s[j])
        {
          assert j != 0;
          assert s[j] == t[j - 1];
        }
      } else {
        KeepFirstBest(t, key, seen + {k}, le);
        var rest := KeepFirst(t, key, seen + {k});
        assert r == [s[0]] + rest;
        forall i, j | 0 <= i < |r| && 0 <= j < |s| && key(s[j]) == key(r[i])
          ensures le(r[i], s[j])
        {
          if i == 0 {
            if j > 0 { assert s[j] == t[j - 1]; } else { assert le(s[0], s[0]); }
          } else {
            assert r[i] == rest[i - 1];
            assert key(rest[i - 1]) !in seen + {k};
            assert j != 0;
            assert s[j] == t[j - 1];
          }
        }
      }
    }
  }

  /** Two duplicate-free sequences with no common element concatenate to a
      duplicate-free sequence. */
  lemma DistinctConcat<T>(a: seq<T>, b: seq<T>)
    requires Distinct(a) && Distinct(b)
    requires forall i, j :: 0 <= i < |a| && 0 <= j < |b| ==> a[i] != b[j]
    ensures Distinct(a + b)
  {
    var r := a + b;
    forall i, j | 0 <= i < j < |r| ensures r[i] != r[j] {
      if j < |a| {
        assert r[i] == a[i] && r[j] == a[j];
      } else if i < |a| {
        assert r[i] == a[i] && r[j] == b[j - |a|];
      } else {
        assert r[i] == b[i - |a|] && r[j] == b[j - |a|];
      }
    }
  }

  /** `m` is a least element of `s`. */
  predicate IsLeastBy<T>(m: T, s: set<T>, le: (T, T) -> bool)
  {
    m in s && forall y :: y in s ==> le(m, y)
  }

  lemma {:induction false} LeastByExists<T(!new)>(s: set<T>, le: (T, T) -> bool)
    requires TotalPreorder(le)
    requires s != {}
    ensures exists m :: IsLeastBy(m, s, le)
    decreases s
  {
    var x :| x in s;
    assert le(x, x);
    if s - {x} == {} {
      assert s == {x};
      assert IsLeastBy(x, s, le);
    } else {
      LeastByExists(s - {x}, le);
      var m :| IsLeastBy(m, s - {x}, le);
      if le(x, m) {
        forall y | y in s ensures le(x, y) {
          if y != x {
            assert le(m, y);
            assert le(x, m) && le(m, y) ==> le(x, y);
          }
        }
        assert IsLeastBy(x, s, le);
      } else {
        assert IsLeastBy(m, s, le);
      }
    }
  }

  /** `sorted(a_set)`: the elements of a finite set, least first. */
  function SortSet<T(==,!new)>(s: set<T>, le: (T, T) -> bool): (r: seq<T>)
    requires TotalOrder(le)
    ensures |r| == |s|
    decreases s
  {
    if s == {} then []
    else
      LeastByExists(s, le);
      var m :| IsLeastBy(m, s, le);
      [m] + SortSet(s - {m}, le)
  }

  /** The sorted set holds each element of the set once, in ascending order. */
  lemma {:induction false} SortSetSpec<T(!new)>(s: set<T>, le: (T, T) -> bool)
    requires TotalOrder(le)
    ensures SortedBy(SortSet(s, le), le) && Distinct(SortSet(s, le))
    ensures forall x :: x in SortSet(s, le) <==> x in s
    decreases s
  {
    if s != {} {
      LeastByExists(s, le);
      var m :| IsLeastBy(m, s, le);
      var rest := SortSet(s - {m}, le);
      SortSetSpec(s - {m}, le);
      var r := SortSet(s, le);
      assert r == [m] + rest;
      forall i, j | 0 <= i < j < |r| ensures le(r[i], r[j]) && r[i] != r[j] {
        assert r[j] == rest[j - 1];
        assert rest[j - 1] in rest;
        if i > 0 {
          assert r[i] == rest[i - 1];
        }
      }
    }
  }

  /** The pieces `f(x)` of the elements `xs`, concatenated front to back. */
  function ConcatMap<T, U>(xs: seq<T>, f: T -> seq<U>): seq<U>
  {
    if xs == [] then [] else f(xs[0]) + ConcatMap(xs[1..], f)
  }

  /** Pieces of at least (exactly) one element give at least (exactly)
      one output element per input element. */
  lemma {:induction false} ConcatMapLength<T, U>(xs: seq<T>, f: T -> seq<U>)
    requires forall x :: |f(x)| >= 1
    ensures |ConcatMap(xs, f)| >= |xs|
    ensures (forall x :: |f(x)| == 1) ==> |ConcatMap(xs, f)| == |xs|
  {
    if xs != [] {
      ConcatMapLength(xs[1..], f);
    }
  }

  /** Every element of every piece is in the output. */
  lemma {:induction false} ConcatMapCovers<T, U>(xs: seq<T>, f: T -> seq<U>, i: int, m: int)
    requires 0 <= i < |xs| && 0 <= m < |f(xs[i])|
    ensures exists k :: 0 <= k < |ConcatMap(xs, f)| && ConcatMap(xs, f)[k] == f(xs[i])[m]
  {
    var head := f(xs[0]);
    var tail := ConcatMap(xs[1..], f);
    var out := ConcatMap(xs, f);
    assert out == head + tail;
    if i == 0 {
      assert out[m] == head[m];
    } else {
      assert xs[1..][i - 1] == xs[i];
      ConcatMapCovers(xs[1..], f, i - 1, m);
      var k :| 0 <= k < |tail| && tail[k] == f(xs[i])[m];
      assert out[|head| + k] == tail[k];
    }
  }

  /** The first piece starts the output. */
  lemma ConcatMapHead<T, U>(xs: seq<T>, f: T -> seq<U>)
    requires xs != []
    ensures f(xs[0]) <= ConcatMap(xs, f)
  {
    assert ConcatMap(xs, f) == f(xs[0]) + ConcatMap(xs[1..], f);
  }

  /** Every output element is an element of some piece. */
  lemma {:induction false} ConcatMapFrom<T, U>(xs: seq<T>, f: T -> seq<U>, k: int)
    requires 0 <= k < |ConcatMap(xs, f)|
    ensures exists i, m :: 0 <= i < |xs| && 0 <= m < |f(xs[i])| && ConcatMap(xs, f)[k] == f(xs[i])[m]
  {
    var head := f(xs[0]);
    var tail := ConcatMap(xs[1..], f);
    assert ConcatMap(xs, f) == head + tail;
    if k < |head| {
      assert ConcatMap(xs, f)[k] == f(xs[0])[k];
    } else {
      ConcatMapFrom(xs[1..], f, k - |head|);
      var i, m :| 0 <= i < |xs[1..]| && 0 <= m < |f(xs[1..][i])| && tail[k - |head|] == f(xs[1..][i])[m];
      assert xs[1..][i] == xs[i + 1];
      assert ConcatMap(xs, f)[k] == f(xs[i + 1])[m];
    }
  }

  /** When every piece has one element, the output lists them in order. */
  lemma {:induction false} ConcatMapSingletons<T, U>(xs: seq<T>, f: T -> seq<U>)
    requires forall i :: 0 <= i < |xs| ==> |f(xs[i])| == 1
    ensures |ConcatMap(xs, f)| == |xs|
    ensures forall i :: 0 <= i < |xs| ==> ConcatMap(xs, f)[i] == f(xs[i])[0]
  {
    if xs != [] {
      var rest := xs[1..];
      forall i | 0 <= i < |rest| ensures |f(rest[i])| == 1 {
        assert rest[i] == xs[i + 1];
      }
      ConcatMapSingletons(rest, f);
      var out := ConcatMap(xs, f);
      assert out == f(xs[0]) + ConcatMap(rest, f);
      forall i | 0 <= i < |xs| ensures out[i] == f(xs[i])[0] {
        if i > 0 {
          assert rest[i - 1] == xs[i];
        }
      }
    }
  }

  /** The pieces `f(k)` for the keys `ks`, concatenated in key order: what
      a loop over groups builds by appending each group's output. */
  function FlatMap<K, V>(f: K -> seq<V>, ks: seq<K>): seq<V>
  {
    if ks == [] then [] else FlatMap(f, ks[..|ks| - 1]) + f(ks[|ks| - 1])
  }

  /** One more key appends its piece. */
  lemma FlatMapSnoc<K, V>(f: K -> seq<V>, ks: seq<K>, i: int)
    requires 0 <= i < |ks|
    ensures FlatMap(f, ks[..i + 1]) == FlatMap(f, ks[..i]) + f(ks[i])
  {
    assert ks[..i + 1][..i] == ks[..i];
  }

  /** The same, after a prefix already produced. */
  lemma FlatMapAppend<K, V>(before: seq<V>, f: K -> seq<V>, ks: seq<K>, i: int)
    requires 0 <= i < |ks|
    ensures before + FlatMap(f, ks[..i + 1]) == (before + FlatMap(f, ks[..i])) + f(ks[i])
  {
    FlatMapSnoc(f, ks, i);
  }

  /** When every piece has `m` elements, the output has `m` per key. */
  lemma {:induction false} FlatMapLength<K, V>(f: K -> seq<V>, ks: seq<K>, m: nat)
    requires forall j :: 0 <= j < |ks| ==> |f(ks[j])| == m
    ensures |FlatMap(f, ks)| == m * |ks|
  {
    if ks != [] {
      var init := ks[..|ks| - 1];
      assert forall j :: 0 <= j < |init| ==> init[j] == ks[j];
      FlatMapLength(f, init, m);
      assert m * |ks| == m * |init| + m;
    }
  }

  /** A property every piece's elements have, every output element has. */
  lemma {:induction false} FlatMapAll<K, V>(f: K -> seq<V>, ks: seq<K>, P: V -> bool)
    requires forall j, m :: 0 <= j < |ks| && 0 <= m < |f(ks[j])| ==> P(f(ks[j])[m])
    ensures forall i :: 0 <= i < |FlatMap(f, ks)| ==> P(FlatMap(f, ks)[i])
  {
    if ks != [] {
      var init := ks[..|ks| - 1];
      var last := |ks| - 1;
      assert forall j :: 0 <= j < |init| ==> init[j] == ks[j];
      FlatMapAll(f, init, P);
      var before := FlatMap(f, init);
      var r := FlatMap(f, ks);
      assert r == before + f(ks[last]);
      forall i | 0 <= i < |r| ensures P(r[i]) {
        if i < |before| {
          assert r[i] == before[i];
        } else {
          assert r[i] == f(ks[last])[i - |before|];
        }
      }
    }
  }

  /** Every element of every key's piece is in the output. */
  lemma {:induction false} FlatMapCovers<K, V>(f: K -> seq<V>, ks: seq<K>, j: int, m: int)
    requires 0 <= j < |ks| && 0 <= m < |f(ks[j])|
    ensures exists i :: 0 <= i < |FlatMap(f, ks)| && FlatMap(f, ks)[i] == f(ks[j])[m]
  {
    var init := ks[..|ks| - 1];
    var last := |ks| - 1;
    var before := FlatMap(f, init);
    var r := FlatMap(f, ks);
    assert r == before + f(ks[last]);
    if j < last {
      assert ks[j] == init[j];
      FlatMapCovers(f, init, j, m);
      var i :| 0 <= i < |before| && before[i] == f(init[j])[m];
      assert r[i] == before[i];
    } else {
      assert r[|before| + m] == f(ks[last])[m];
    }
  }

  /** When every piece holds at most one element, tagged with its own key,
      and the keys are ascending and distinct, the output's tags are too. */
  lemma {:induction false} FlatMapOrdered<K, V>(f: K -> seq<V>, ks: seq<K>, tag: V -> K, le: (K, K) -> bool)
    requires forall j :: 0 <= j < |ks| ==> |f(ks[j])| <= 1
    requires forall j, m :: 0 <= j < |ks| && 0 <= m < |f(ks[j])| ==> tag(f(ks[j])[m]) == ks[j]
    requires SortedBy(ks, le) && Distinct(ks)
    ensures forall i, i' :: 0 <= i < i' < |FlatMap(f, ks)| ==>
              le(tag(FlatMap(f, ks)[i]), tag(FlatMap(f, ks)[i'])) && tag(FlatMap(f, ks)[i]) != tag(FlatMap(f, ks)[i'])
  {
    if ks != [] {
      var init := ks[..|ks| - 1];
      var last := |ks| - 1;
      var k := ks[last];
      assert forall j :: 0 <= j < |init| ==> init[j] == ks[j];
      FlatMapOrdered(f, init, tag, le);
      var before := FlatMap(f, init);
      FlatMapAll(f, init, (v: V) => le(tag(v), k) && tag(v) != k);
      var r := FlatMap(f, ks);
      assert r == before + f(k);
      if f(k) != [] {
        assert |r| == |before| + 1;
        assert tag(r[|before|]) == k;
        forall i, i' | 0 <= i < i' < |r| ensures le(tag(r[i]), tag(r[i'])) && tag(r[i]) != tag(r[i']) {
          assert r[i] == before[i];
          if i' < |before| {
            assert r[i'] == before[i'];
          }
        }
      }
    }
  }

  /** A dictionary filled in order, `d[key(x)] = val(x)` for each `x`: a
      later element with the same key replaces an earlier one. */
  function IndexBy<T, K, V>(xs: seq<T>, key: T -> K, val: T -> V): map<K, V>
  {
    if xs == [] then map[]
    else IndexBy(xs[..|xs| - 1], key, val)[key(xs[|xs| - 1]) := val(xs[|xs| - 1])]
  }

  lemma IndexBySnoc<T, K, V>(xs: seq<T>, key: T -> K, val: T -> V, i: int)
    requires 0 <= i < |xs|
    ensures IndexBy(xs[..i + 1], key, val) == IndexBy(xs[..i], key, val)[key(xs[i]) := val(xs[i])]
  {
    assert xs[..i + 1][..i] == xs[..i];
  }

  /** The keys of the dictionary are exactly the keys of the elements. */
  lemma {:induction false} IndexByKeys<T, K, V>(xs: seq<T>, key: T -> K, val: T -> V, k: K)
    ensures k in IndexBy(xs, key, val) <==> exists i :: 0 <= i < |xs| && key(xs[i]) == k
  {
    if xs != [] {
      var init := xs[..|xs| - 1];
      IndexByKeys(init, key, val, k);
      if k in IndexBy(init, key, val) {
        var i :| 0 <= i < |init| && key(init[i]) == k;
        assert xs[i] == init[i];
      }
      if exists i :: 0 <= i < |xs| && key(xs[i]) == k {
        var i :| 0 <= i < |xs| && key(xs[i]) == k;
        if i < |init| {
          assert key(init[i]) == k;
        }
      }
    }
  }

  /** A key holds the value of the last element with that key. */
  lemma {:induction false} IndexByLast<T, K, V>(xs: seq<T>, key: T -> K, val: T -> V, i: int)
    requires 0 <= i < |xs|
    requires forall j :: i < j < |xs| ==> key(xs[j]) != key(xs[i])
    ensures key(xs[i]) in IndexBy(xs, key, val)
    ensures IndexBy(xs, key, val)[key(xs[i])] == val(xs[i])
  {
    var init := xs[..|xs| - 1];
    if i < |init| {
      assert xs[i] == init[i];
      assert forall j :: i < j < |init| ==> init[j] == xs[j];
      IndexByLast(init, key, val, i);
    }
  }

  /** The union of `f(x)` over the elements of `xs`: a set filled by a loop
      over `xs`. */
  function UnionOf<T, U>(xs: seq<T>, f: T -> set<U>): set<U>
  {
    if xs == [] then {} else UnionOf(xs[..|xs| - 1], f) + f(xs[|xs| - 1])
  }

  lemma UnionOfSnoc<T, U>(xs: seq<T>, f: T -> set<U>, i: int)
    requires 0 <= i < |xs|
    ensures UnionOf(xs[..i + 1], f) == UnionOf(xs[..i], f) + f(xs[i])
  {
    assert xs[..i + 1][..i] == xs[..i];
  }

  /** An element of the union comes from some element of `xs`. */
  lemma {:induction false} UnionOfSound<T, U>(xs: seq<T>, f: T -> set<U>, y: U)
    requires y in UnionOf(xs, f)
    ensures exists i :: 0 <= i < |xs| && y in f(xs[i])
  {
    var init := xs[..|xs| - 1];
    if y in UnionOf(init, f) {
      UnionOfSound(init, f, y);
      var i :| 0 <= i < |init| && y in f(init[i]);
      assert xs[i] == init[i];
    } else {
      assert y in f(xs[|xs| - 1]);
    }
  }

  /** Every element of every `f(x)` is in the union. */
  lemma {:induction false} UnionOfComplete<T, U>(xs: seq<T>, f: T -> set<U>, y: U, i: int)
    requires 0 <= i < |xs| && y in f(xs[i])
    ensures y in UnionOf(xs, f)
  {
    var init := xs[..|xs| - 1];
    if i < |init| {
      assert xs[i] == init[i];
      UnionOfComplete(init, f, y, i);
    }
  }

  /** Sum of a sequence of reals, left to right. */
  function SumReal(s: seq<real>): real
  {
    if s == [] then 0.0 else SumReal(s[..|s| - 1]) + s[|s| - 1]
  }

  /** `np.mean` of a non-empty sequence. */
  function Mean(xs: seq<real>): real
    requires xs != []
  {
    SumReal(xs) / (|xs| as real)
  }

  /** A sum of values each within `[lo, hi]` lies between `|s|` times
      either bound. */
  lemma {:induction false} SumRealBounds(s: seq<real>, lo: real, hi: real)
    requires forall i :: 0 <= i < |s| ==> lo <= s[i] <= hi
    ensures (|s| as real) * lo <= SumReal(s) <= (|s| as real) * hi
  {
    if s != [] {
      SumRealBounds(s[..|s| - 1], lo, hi);
    }
  }

  /** The mean of values within `[lo, hi]` is within `[lo, hi]`. */
  lemma MeanBounds(s: seq<real>, lo: real, hi: real)
    requires s != []
    requires forall i :: 0 <= i < |s| ==> lo <= s[i] <= hi
    ensures lo <= Mean(s) <= hi
  {
    SumRealBounds(s, lo, hi);
    var n := |s| as real;
    var m := Mean(s);
    assert m * n == SumReal(s);
    assert (m - lo) * n == SumReal(s) - n * lo;
    assert (hi - m) * n == n * hi - SumReal(s);
    NonNegativeFactor(m - lo, n);
    NonNegativeFactor(hi - m, n);
  }

  /** A product with a positive factor that is not negative has a
      non-negative other factor. */
  lemma NonNegativeFactor(a: real, n: real)
    requires n > 0.0 && a * n >= 0.0
    ensures a >= 0.0
  {
  }
}
