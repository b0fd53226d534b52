/** The Apriori-like association-rule miner over `merged_df`
    (backend/recommendation.py, `_generate_association_rules`): one
    transaction of `attr=value` items per row, support counts of every
    itemset of one to three items, the frequent itemsets, and one rule per
    single-item consequent of every frequent itemset of two or more items. */
module RuleMiner {
  import opened Seqs
  import opened Text
  import opened Normalize

  /** `min_support` */
  const MinSupport: real := 0.02

  /** `max_itemset_size` */
  const MaxItemsetSize: nat := 3

  type Itemset = set<string>

  /** A mined rule: the antecedent's items sorted and joined with `;`, the
      single consequent item, and the metrics. */
  datatype Rule = Rule(antecedent: string, consequent: string, support: real, confidence: real, lift: real)

  /** The separator of the antecedent column. */
  predicate IsSemicolon(c: char) { c == ';' }

  // ---------------------------------------------------------------------
  // Transactions
  // ---------------------------------------------------------------------

  /** `a.lower()` for the attributes Program, Stream, Quota, Category,
      District, in that order. */
  const Attributes: seq<string> := ["program", "stream", "quota", "category", "district"]

  /** The values of those attributes in a merged row; the first four
      are always present, the district comes from the district merge. */
  function AttrCells(m: MergedRow): (r: seq<Cell>)
    ensures |r| == |Attributes|
  {
    [Val(m.rank.program), Val(m.rank.stream), Val(m.rank.quota), Val(m.rank.category), m.district]
  }

  /** `str(v).strip().lower()` of a cell that is present and not blank. */
  function Present(c: Cell): (r: Option<string>)
    ensures r.Some? <==> c.Val? && Strip(c.text) != ""
    ensures r.Some? ==> r.value != "" && !IsSpace(r.value[0]) && !IsSpace(r.value[|r.value| - 1])
    ensures r.Some? ==> forall i :: 0 <= i < |r.value| ==> !IsUpper(r.value[i])
  {
    match c
    case Val(v) =>
      var t := Strip(v);
      if t == "" then None
      else
        LowerFacts(t);
        Some(Lower(t))
    case _ => None
  }

  /** The item `attr=value`. */
  function Item(attr: string, value: string): string
  {
    attr + "=" + value
  }

  /** The item one attribute contributes, if any. */
  function ItemOf(name: string, c: Cell): Itemset
  {
    match Present(c)
    case Some(v) => {Item(name, v)}
    case None => {}
  }

  /** The items of attributes `names` with values `cells`. */
  function ItemsFrom(names: seq<string>, cells: seq<Cell>): Itemset
    requires |names| == |cells|
  {
    if names == [] then {}
    else ItemsFrom(names[..|names| - 1], cells[..|cells| - 1]) + ItemOf(names[|names| - 1], cells[|cells| - 1])
  }

  /** Attribute `name` with value `c` contributes the item `x`. */
  predicate Contributes(name: string, c: Cell, x: string)
  {
    Present(c).Some? && x == Item(name, Present(c).value)
  }

  lemma ItemOfSpec(name: string, c: Cell, x: string)
    ensures x in ItemOf(name, c) <==> Contributes(name, c, x)
  {
  }

  /** A transaction holds exactly one `attr=value` item for each attribute
      whose value is present, and nothing else. */
  lemma {:induction false} ItemsFromSpec(names: seq<string>, cells: seq<Cell>, x: string)
    requires |names| == |cells|
    ensures x in ItemsFrom(names, cells) <==> exists a :: 0 <= a < |names| && Contributes(names[a], cells[a], x)
  {
    if names != [] {
      var n := |names| - 1;
      var ns, cs := names[..n], cells[..n];
      ItemsFromSpec(ns, cs, x);
      ItemOfSpec(names[n], cells[n], x);
      if x in ItemsFrom(ns, cs) {
        var a :| 0 <= a < n && Contributes(ns[a], cs[a], x);
        assert ns[a] == names[a] && cs[a] == cells[a];
      }
      if exists a :: 0 <= a < |names| && Contributes(names[a], cells[a], x) {
        var a :| 0 <= a < |names| && Contributes(names[a], cells[a], x);
        if a < n {
          assert ns[a] == names[a] && cs[a] == cells[a];
          assert Contributes(ns[a], cs[a], x);
        } else {
          assert a == n;
        }
      }
    }
  }

  /** A row's item set. */
  function ItemsOf(m: MergedRow): Itemset
  {
    ItemsFrom(Attributes, AttrCells(m))
  }

  /** The transactions: each row's items in ascending order, rows without
      items skipped. */
  function Transactions(rows: seq<MergedRow>): seq<seq<string>>
  {
    if rows == [] then []
    else
      var items := ItemsOf(rows[|rows| - 1]);
      Transactions(rows[..|rows| - 1]) + (if items != {} then [SortedItems(items)] else [])
  }

  /** Every transaction is non-empty and strictly ascending. */
  lemma {:induction false} TransactionsSorted(rows: seq<MergedRow>)
    ensures forall i :: 0 <= i < |Transactions(rows)| ==>
              Transactions(rows)[i] != [] && StrictlySorted(Transactions(rows)[i])
  {
    if rows != [] {
      TransactionsSorted(rows[..|rows| - 1]);
    }
  }

  /** The items of a sequence. */
  function Elems(t: seq<string>): set<string>
  {
    set x | x in t
  }

  // ---------------------------------------------------------------------
  // Support counts
  // ---------------------------------------------------------------------

  /** The number of transactions that contain every item of `s`. */
  function CountIn(ts: seq<seq<string>>, s: Itemset): (n: nat)
    ensures n <= |ts|
  {
    if ts == [] then 0
    else CountIn(ts[..|ts| - 1], s) + (if s <= Elems(ts[|ts| - 1]) then 1 else 0)
  }

  /** A larger itemset is contained in no more transactions. */
  lemma {:induction false} CountAntiMonotone(ts: seq<seq<string>>, a: Itemset, b: Itemset)
    requires a <= b
    ensures CountIn(ts, b) <= CountIn(ts, a)
  {
    if ts != [] {
      CountAntiMonotone(ts[..|ts| - 1], a, b);
    }
  }

  /** `itertools.combinations(t, k)`, each combination as a set, in the
      order itertools yields them. */
  function Combos(t: seq<string>, k: nat): seq<Itemset>
    decreases |t|
  {
    if k == 0 then [{}]
    else if t == [] then []
    else WithItem(t[0], Combos(t[1..], k - 1)) + Combos(t[1..], k)
  }

  function WithItem(x: string, ss: seq<Itemset>): (r: seq<Itemset>)
    ensures |r| == |ss| && forall i :: 0 <= i < |ss| ==> r[i] == {x} + ss[i]
  {
    seq(|ss|, i requires 0 <= i < |ss| => {x} + ss[i])
  }

  /** Removing the first item of a duplicate-free sequence. */
  lemma DistinctTail(t: seq<string>)
    requires Distinct(t) && t != []
    ensures Distinct(t[1..]) && t[0] !in Elems(t[1..])
    ensures Elems(t) == {t[0]} + Elems(t[1..])
  {
    var u := t[1..];
    assert t == [t[0]] + u;
    forall i, j | 0 <= i < j < |u| ensures u[i] != u[j] {
      assert u[i] == t[i + 1] && u[j] == t[j + 1];
    }
    forall i | 0 <= i < |u| ensures u[i] != t[0] {
      assert u[i] == t[i + 1];
    }
  }

  /** Every combination of size `k` is a `k`-item subset. */
  lemma {:induction false} CombosShape(t: seq<string>, k: nat)
    requires Distinct(t)
    ensures forall i :: 0 <= i < |Combos(t, k)| ==> Combos(t, k)[i] <= Elems(t) && |Combos(t, k)[i]| == k
    decreases |t|
  {
    if k > 0 && t != [] {
      var x := t[0];
      var u := t[1..];
      DistinctTail(t);
      CombosShape(u, k - 1);
      CombosShape(u, k);
      var c := Combos(u, k - 1);
      var a := WithItem(x, c);
      var b := Combos(u, k);
      var r := Combos(t, k);
      assert r == a + b;
      forall i | 0 <= i < |r| ensures r[i] <= Elems(t) && |r[i]| == k {
        if i < |a| {
          assert x !in c[i];
          assert r[i] == {x} + c[i];
        } else {
          assert r[i] == b[i - |a|];
        }
      }
    }
  }

  /** Every `k`-item subset is one of the combinations of size `k`. */
  lemma {:induction false} CombosCover(t: seq<string>, k: nat, s: Itemset)
    requires Distinct(t)
    requires s <= Elems(t) && |s| == k
    ensures s in Combos(t, k)
    decreases |t|, 1
  {
    if k == 0 {
      assert s == {};
    } else if t == [] {
      assert false;
    } else {
      CombosCoverCons(t, k, s);
    }
  }

  /** The step of `CombosCover`: a subset either takes the first item or
      does not. */
  lemma {:induction false} CombosCoverCons(t: seq<string>, k: nat, s: Itemset)
    requires Distinct(t) && t != [] && k > 0
    requires s <= Elems(t) && |s| == k
    ensures s in Combos(t, k)
    decreases |t|, 0
  {
    var x := t[0];
    var u := t[1..];
    DistinctTail(t);
    assert Combos(t, k) == WithItem(x, Combos(u, k - 1)) + Combos(u, k);
    if x in s {
      var s' := s - {x};
      assert s == {x} + s' && x !in s';
      assert |s'| == k - 1;
      assert s' <= Elems(u);
      CombosCover(u, k - 1, s');
      WithItemCovers(x, Combos(u, k - 1), s');
    } else {
      CombosCover(u, k, s);
    }
  }

  /** An itemset among `c` gains the item among `WithItem(x, c)`. */
  lemma WithItemCovers(x: string, c: seq<Itemset>, s: Itemset)
    requires s in c
    ensures {x} + s in WithItem(x, c)
  {
    var j :| 0 <= j < |c| && c[j] == s;
    assert WithItem(x, c)[j] == {x} + s;
  }

  /** No combination is produced twice. */
  lemma {:induction false} CombosDistinct(t: seq<string>, k: nat)
    requires Distinct(t)
    ensures Distinct(Combos(t, k))
    decreases |t|
  {
    if k > 0 && t != [] {
      var x := t[0];
      var u := t[1..];
      DistinctTail(t);
      CombosDistinct(u, k - 1);
      CombosDistinct(u, k);
      CombosAvoid(u, k - 1, x);
      CombosAvoid(u, k, x);
      var c := Combos(u, k - 1);
      var a := WithItem(x, c);
      var b := Combos(u, k);
      assert Combos(t, k) == a + b;
      WithItemDistinct(x, c);
      WithItemApart(x, c, b);
      DistinctConcat(a, b);
    }
  }

  /** No combination holds an item the sequence does not. */
  lemma CombosAvoid(t: seq<string>, k: nat, x: string)
    requires Distinct(t) && x !in Elems(t)
    ensures forall i :: 0 <= i < |Combos(t, k)| ==> x !in Combos(t, k)[i]
  {
    CombosShape(t, k);
  }

  /** Adding an item none of the itemsets has keeps them apart. */
  lemma WithItemDistinct(x: string, c: seq<Itemset>)
    requires Distinct(c)
    requires forall i :: 0 <= i < |c| ==> x !in c[i]
    ensures Distinct(WithItem(x, c))
  {
    var a := WithItem(x, c);
    forall i, j | 0 <= i < j < |a| ensures a[i] != a[j] {
      assert a[i] - {x} == c[i] && a[j] - {x} == c[j];
    }
  }

  /** Itemsets with the item differ from itemsets without it. */
  lemma WithItemApart(x: string, c: seq<Itemset>, b: seq<Itemset>)
    requires forall j :: 0 <= j < |b| ==> x !in b[j]
    ensures forall i, j :: 0 <= i < |c| && 0 <= j < |b| ==> WithItem(x, c)[i] != b[j]
  {
  }

  /** The combinations of sizes 1 to `k`, in the order the counting loop
      visits them. */
  function SubsetsUpTo(t: seq<string>, k: nat): seq<Itemset>
  {
    if k == 0 then [] else SubsetsUpTo(t, k - 1) + Combos(t, k)
  }

  /** Every visited itemset has one to `k` items of the transaction. */
  lemma {:induction false} SubsetsShape(t: seq<string>, k: nat)
    requires Distinct(t)
    ensures forall i :: 0 <= i < |SubsetsUpTo(t, k)| ==>
              SubsetsUpTo(t, k)[i] <= Elems(t) && 1 <= |SubsetsUpTo(t, k)[i]| <= k
  {
    if k > 0 {
      SubsetsShape(t, k - 1);
      CombosShape(t, k);
      var p := SubsetsUpTo(t, k - 1);
      var c := Combos(t, k);
      assert SubsetsUpTo(t, k) == p + c;
    }
  }

  /** Every itemset of one to `k` items of the transaction is visited. */
  lemma {:induction false} SubsetsCover(t: seq<string>, k: nat, s: Itemset)
    requires Distinct(t)
    requires s <= Elems(t) && 1 <= |s| <= k
    ensures s in SubsetsUpTo(t, k)
  {
    var p := SubsetsUpTo(t, k - 1);
    var c := Combos(t, k);
    assert SubsetsUpTo(t, k) == p + c;
    if |s| < k {
      SubsetsCover(t, k - 1, s);
    } else {
      CombosCover(t, k, s);
    }
  }

  /** No itemset is visited twice for one transaction. */
  lemma {:induction false} SubsetsDistinct(t: seq<string>, k: nat)
    requires Distinct(t)
    ensures Distinct(SubsetsUpTo(t, k))
  {
    if k > 0 {
      SubsetsDistinct(t, k - 1);
      SubsetsShape(t, k - 1);
      CombosDistinct(t, k);
      CombosShape(t, k);
      var p := SubsetsUpTo(t, k - 1);
      var c := Combos(t, k);
      var r := SubsetsUpTo(t, k);
      assert r == p + c;
      forall i, j | 0 <= i < j < |r| ensures r[i] != r[j] {
        if j >= |p| {
          assert r[j] == c[j - |p|];
          if i >= |p| {
            assert r[i] == c[i - |p|];
          } else {
            assert |r[i]| < k;
          }
        }
      }
    }
  }

  /** For one transaction, the visited itemsets are exactly its subsets of
      one to three items. */
  lemma SubsetsSpec(t: seq<string>, s: Itemset, size: nat)
    requires Distinct(t)
    ensures s in Subsets(t, size) <==> s <= Elems(t) && 1 <= |s| <= size
  {
    SubsetsShape(t, size);
    if s <= Elems(t) && 1 <= |s| <= size {
      SubsetsCover(t, size, s);
    }
  }

  /** The itemsets the counting loop visits for one transaction. */
  function Subsets(t: seq<string>, size: nat): seq<Itemset>
  {
    SubsetsUpTo(t, size)
  }

  /** The `Counter` of itemsets: counts, and the keys in insertion order
      (the order a dict iterates). */
  datatype Tally = Tally(counts: map<Itemset, nat>, order: seq<Itemset>)

  /** `itemset_counts[s] += 1` */
  function Bump(c: Tally, s: Itemset): Tally
  {
    if s in c.counts then Tally(c.counts[s := c.counts[s] + 1], c.order)
    else Tally(c.counts[s := 1], c.order + [s])
  }

  /** One increment per itemset of `ss`, in order. */
  function BumpAll(c: Tally, ss: seq<Itemset>): Tally
  {
    if ss == [] then c else Bump(BumpAll(c, ss[..|ss| - 1]), ss[|ss| - 1])
  }

  /** `itemset_counts` after counting the transactions `ts`. */
  function TallyOf(ts: seq<seq<string>>, size: nat): Tally
  {
    if ts == [] then Tally(map[], [])
    else BumpAll(TallyOf(ts[..|ts| - 1], size), Subsets(ts[|ts| - 1], size))
  }

  /** A count, zero for an itemset never seen. */
  function Get(m: map<Itemset, nat>, s: Itemset): nat
  {
    if s in m then m[s] else 0
  }

  /** The keys in insertion order are the counted itemsets, each once,
      and every count is positive. */
  ghost predicate WellFormed(c: Tally)
  {
    && Distinct(c.order)
    && (forall s :: s in c.counts <==> s in c.order)
    && (forall s :: s in c.counts ==> c.counts[s] >= 1)
  }

  /** Counting a list of distinct itemsets adds one to each of them. */
  lemma {:induction false} BumpAllSpec(c: Tally, ss: seq<Itemset>)
    requires WellFormed(c) && Distinct(ss)
    ensures WellFormed(BumpAll(c, ss))
    ensures forall s :: Get(BumpAll(c, ss).counts, s) == Get(c.counts, s) + (if s in ss then 1 else 0)
  {
    if ss != [] {
      var init := ss[..|ss| - 1];
      var last := ss[|ss| - 1];
      assert Distinct(init);
      assert last !in init by {
        forall i | 0 <= i < |init| ensures init[i] != last {
          assert init[i] == ss[i];
        }
      }
      assert ss == init + [last];
      BumpAllSpec(c, init);
      var d := BumpAll(c, init);
      var e := Bump(d, last);
      if last !in d.counts {
        assert last !in d.order;
        assert Distinct(e.order) by {
          forall i, j | 0 <= i < j < |e.order| ensures e.order[i] != e.order[j] {
            if j == |d.order| {
              assert e.order[i] == d.order[i];
            } else {
              assert e.order[i] == d.order[i] && e.order[j] == d.order[j];
            }
          }
        }
      }
    }
  }

  /** The counter's keys are the counted itemsets, each once, in
      insertion order. */
  lemma {:induction false} TallyWellFormed(ts: seq<seq<string>>, size: nat)
    requires forall i :: 0 <= i < |ts| ==> Distinct(ts[i])
    ensures WellFormed(TallyOf(ts, size))
  {
    if ts != [] {
      TallyWellFormed(ts[..|ts| - 1], size);
      SubsetsDistinct(ts[|ts| - 1], size);
      BumpAllSpec(TallyOf(ts[..|ts| - 1], size), Subsets(ts[|ts| - 1], size));
    }
  }

  /** The counter holds, for every itemset of one to `size` items, the
      number of transactions containing it, and nothing else. */
  lemma {:induction false} TallySpec(ts: seq<seq<string>>, size: nat, s: Itemset)
    requires forall i :: 0 <= i < |ts| ==> Distinct(ts[i])
    ensures Get(TallyOf(ts, size).counts, s) == if 1 <= |s| <= size then CountIn(ts, s) else 0
  {
    if ts != [] {
      var init := ts[..|ts| - 1];
      var t := ts[|ts| - 1];
      TallySpec(init, size, s);
      TallyWellFormed(init, size);
      SubsetsDistinct(t, size);
      BumpAllSpec(TallyOf(init, size), Subsets(t, size));
      SubsetsSpec(t, s, size);
    }
  }

  /** The counting loop over the transactions. */
  method CountItemsets(ts: seq<seq<string>>, size: nat) returns (counts: map<Itemset, nat>, order: seq<Itemset>)
    ensures Tally(counts, order) == TallyOf(ts, size)
  {
    counts := map[];
    order := [];
    for i := 0 to |ts|
      invariant Tally(counts, order) == TallyOf(ts[..i], size)
    {
      counts, order := CountTransaction(counts, order, ts[i], size);
      assert ts[..i + 1][..i] == ts[..i];
    }
    assert ts[..|ts|] == ts;
  }

  /** The counting loops for one transaction: every size 1 to `size`,
      every combination of that size. */
  method CountTransaction(counts0: map<Itemset, nat>, order0: seq<Itemset>, t: seq<string>, size: nat)
    returns (counts: map<Itemset, nat>, order: seq<Itemset>)
    ensures Tally(counts, order) == BumpAll(Tally(counts0, order0), Subsets(t, size))
  {
    counts, order := counts0, order0;
    for k := 1 to size + 1
      invariant Tally(counts, order) == BumpAll(Tally(counts0, order0), SubsetsUpTo(t, k - 1))
    {
      counts, order := CountCombos(counts, order, Combos(t, k));
      BumpAllConcat(Tally(counts0, order0), SubsetsUpTo(t, k - 1), Combos(t, k));
    }
  }

  /** `itemset_counts[frozenset(comb)] += 1` for every combination. */
  method CountCombos(counts0: map<Itemset, nat>, order0: seq<Itemset>, combos: seq<Itemset>)
    returns (counts: map<Itemset, nat>, order: seq<Itemset>)
    ensures Tally(counts, order) == BumpAll(Tally(counts0, order0), combos)
  {
    counts, order := counts0, order0;
    for j := 0 to |combos|
      invariant Tally(counts, order) == BumpAll(Tally(counts0, order0), combos[..j])
    {
      var s := combos[j];
      if s in counts {
        counts := counts[s := counts[s] + 1];
      } else {
        counts := counts[s := 1];
        order := order + [s];
      }
      assert combos[..j + 1][..j] == combos[..j];
    }
    assert combos[..|combos|] == combos;
  }

  /** Counting two lists is counting one after the other. */
  lemma {:induction false} BumpAllConcat(c: Tally, p: seq<Itemset>, q: seq<Itemset>)
    ensures BumpAll(c, p + q) == BumpAll(BumpAll(c, p), q)
  {
    if q != [] {
      assert (p + q)[..|p + q| - 1] == p + q[..|q| - 1];
      BumpAllConcat(c, p, q[..|q| - 1]);
    } else {
      assert p + q == p;
    }
  }


  // ---------------------------------------------------------------------
  // Frequent itemsets and rules
  // ---------------------------------------------------------------------

  /** `cnt / N >= min_support` */
  predicate Frequent(cnt: nat, n: nat)
  {
    n > 0 && (cnt as real) / (n as real) >= MinSupport
  }

  /** `support_map.get(s)`: the support of a frequent itemset. */
  function SupportOf(c: Tally, n: nat, s: Itemset): (r: Option<real>)
    ensures r.Some? <==> s in c.counts && Frequent(c.counts[s], n)
  {
    if s in c.counts && Frequent(c.counts[s], n) then Some((c.counts[s] as real) / (n as real)) else None
  }

  /** The rule with consequent `x` of itemset `s`, when the antecedent and
      the consequent are both frequent. */
  function RuleFor(c: Tally, n: nat, s: Itemset, x: string): seq<Rule>
  {
    var a := s - {x};
    match (SupportOf(c, n, s), SupportOf(c, n, a), SupportOf(c, n, {x}))
    case (Some(supAB), Some(supA), Some(supB)) =>
      var conf := if supA > 0.0 then supAB / supA else 0.0;
      var lift := if supB > 0.0 then conf / supB else 0.0;
      [Rule(Join(SortedItems(a), ';'), x, supAB, conf, lift)]
    case _ => []
  }

  /** `RuleFor` of an itemset known to be frequent, as the loop computes it. */
  lemma RuleForOfFrequent(c: Tally, n: nat, s: Itemset, x: string)
    requires s in c.counts && Frequent(c.counts[s], n)
    ensures var a := s - {x};
            var supA := SupportOf(c, n, a);
            var supB := SupportOf(c, n, {x});
            var supAB := c.counts[s] as real / n as real;
            RuleFor(c, n, s, x) ==
              if supA.Some? && supB.Some? then
                var conf := if supA.value > 0.0 then supAB / supA.value else 0.0;
                var lift := if supB.value > 0.0 then conf / supB.value else 0.0;
                [Rule(Join(SortedItems(a), ';'), x, supAB, conf, lift)]
              else []
  {
  }

  function RuleForOf(c: Tally, n: nat, s: Itemset): string -> seq<Rule>
  {
    (x: string) => RuleFor(c, n, s, x)
  }

  /** The rules of one frequent itemset: none below two items, otherwise
      one candidate per item as consequent. */
  function RulesOfItemset(c: Tally, n: nat, s: Itemset): seq<Rule>
  {
    if |s| < 2 then [] else FlatMap(RuleForOf(c, n, s), SortedItems(s))
  }

  function RulesOfItemsetOf(c: Tally, n: nat): Itemset -> seq<Rule>
  {
    (s: Itemset) => RulesOfItemset(c, n, s)
  }

  /** `frequent_itemsets`, in the counter's insertion order. */
  function FrequentOrder(c: Tally, n: nat): seq<Itemset>
  {
    Filter(c.order, IsFrequentIn(c, n))
  }

  function IsFrequentIn(c: Tally, n: nat): Itemset -> bool
  {
    (s: Itemset) => s in c.counts && Frequent(c.counts[s], n)
  }

  /** The rules in generation order. */
  function Generated(c: Tally, n: nat): seq<Rule>
  {
    FlatMap(RulesOfItemsetOf(c, n), FrequentOrder(c, n))
  }

  /** Confidence descending, then support descending. */
  predicate ConfidenceFirst(a: Rule, b: Rule)
  {
    a.confidence > b.confidence || (a.confidence == b.confidence && a.support >= b.support)
  }

  lemma ConfidenceFirstTotalPreorder()
    ensures TotalPreorder(ConfidenceFirst)
  {
  }

  /** `_generate_association_rules` on `merged_df`. */
  function MinedRules(rows: seq<MergedRow>, size: nat): seq<Rule>
  {
    var ts := Transactions(rows);
    if |ts| == 0 then [] else SortBy(Generated(TallyOf(ts, size), |ts|), ConfidenceFirst)
  }

  /** The miner: transactions, counting, rule generation, sorting. */
  method GenerateRules(rows: seq<MergedRow>, size: nat) returns (rules: seq<Rule>)
    ensures rules == MinedRules(rows, size)
  {
    if rows == [] {
      return [];
    }
    var ts := BuildTransactions(rows);
    var n := |ts|;
    if n == 0 {
      return [];
    }
    var counts, order := CountItemsets(ts, size);
    var c := Tally(counts, order);
    var frequent := FrequentOrder(c, n);
    rules := [];
    for i := 0 to |frequent|
      invariant rules == FlatMap(RulesOfItemsetOf(c, n), frequent[..i])
    {
      var more := EmitRules(c, n, frequent[i]);
      rules := rules + more;
      FlatMapSnoc(RulesOfItemsetOf(c, n), frequent, i);
    }
    assert frequent[..|frequent|] == frequent;
    rules := SortBy(rules, ConfidenceFirst);
  }

  /** The rules of one frequent itemset: one per item as consequent whose
      antecedent and consequent are both frequent. */
  method EmitRules(c: Tally, n: nat, s: Itemset) returns (rules: seq<Rule>)
    requires s in c.counts && Frequent(c.counts[s], n)
    ensures rules == RulesOfItemset(c, n, s)
  {
    rules := [];
    if |s| < 2 {
      return;
    }
    var items := SortedItems(s);
    for j := 0 to |items|
      invariant rules == FlatMap(RuleForOf(c, n, s), items[..j])
    {
      var r := RuleStep(c, n, s, items[j]);
      FlatMapSnoc(RuleForOf(c, n, s), items, j);
      rules := rules + r;
    }
    assert items[..|items|] == items;
  }

  /** One consequent `x` of the frequent itemset `s`: the rule `s - {x} => x`
      when both sides have a support. */
  method RuleStep(c: Tally, n: nat, s: Itemset, x: string) returns (r: seq<Rule>)
    requires s in c.counts && Frequent(c.counts[s], n)
    ensures r == RuleFor(c, n, s, x)
  {
    var a := s - {x};
    var supA := SupportOf(c, n, a);
    var supB := SupportOf(c, n, {x});
    RuleForOfFrequent(c, n, s, x);
    r := [];
    if supA.Some? && supB.Some? {
      var supAB := c.counts[s] as real / n as real;
      var conf := if supA.value > 0.0 then supAB / supA.value else 0.0;
      var lift := if supB.value > 0.0 then conf / supB.value else 0.0;
      r := [Rule(Join(SortedItems(a), ';'), x, supAB, conf, lift)];
    }
  }

  /** The loop over rows building the transactions. */
  method BuildTransactions(rows: seq<MergedRow>) returns (ts: seq<seq<string>>)
    ensures ts == Transactions(rows)
  {
    ts := [];
    for r := 0 to |rows|
      invariant ts == Transactions(rows[..r])
    {
      var items := CollectItems(Attributes, AttrCells(rows[r]));
      if items != {} {
        ts := ts + [SortedItems(items)];
      }
      assert rows[..r + 1][..r] == rows[..r];
    }
    assert rows[..|rows|] == rows;
  }

  /** The loop over the attributes of one row (or of the user's filters):
      one item per attribute with a non-blank value. */
  method CollectItems(names: seq<string>, cells: seq<Cell>) returns (items: Itemset)
    requires |names| == |cells|
    ensures items == ItemsFrom(names, cells)
  {
    items := {};
    for a := 0 to |names|
      invariant items == ItemsFrom(names[..a], cells[..a])
    {
      var v := Present(cells[a]);
      if v.Some? {
        items := items + {Item(names[a], v.value)};
      }
      ItemsFromSnoc(names, cells, a);
    }
    assert names[..|names|] == names && cells[..|cells|] == cells;
  }

  lemma ItemsFromSnoc(names: seq<string>, cells: seq<Cell>, a: int)
    requires |names| == |cells| && 0 <= a < |names|
    ensures ItemsFrom(names[..a + 1], cells[..a + 1]) == ItemsFrom(names[..a], cells[..a]) + ItemOf(names[a], cells[a])
  {
    assert names[..a + 1][..a] == names[..a];
    assert cells[..a + 1][..a] == cells[..a];
  }


  // ---------------------------------------------------------------------
  // Properties of the mined rules
  // ---------------------------------------------------------------------

  /** An itemset the counter keeps as frequent for the transactions `ts`. */
  ghost predicate FrequentIn(ts: seq<seq<string>>, s: Itemset, size: nat)
  {
    1 <= |s| <= size && Frequent(CountIn(ts, s), |ts|)
  }

  /** The support of an itemset over the transactions `ts`. */
  function Support(ts: seq<seq<string>>, s: Itemset): (r: real)
    requires |ts| > 0
    ensures 0.0 <= r <= 1.0
  {
    CountIn(ts, s) as real / |ts| as real
  }

  /** A count divided by the number of transactions is monotone in the
      count. */
  lemma SupportMonotone(ts: seq<seq<string>>, a: Itemset, s: Itemset)
    requires |ts| > 0 && a <= s
    ensures Support(ts, s) <= Support(ts, a)
  {
    CountAntiMonotone(ts, a, s);
    DivMonotone(CountIn(ts, s) as real, CountIn(ts, a) as real, |ts| as real);
  }

  lemma DivMonotone(x: real, y: real, d: real)
    requires x <= y && d > 0.0
    ensures x / d <= y / d
  {
    assert y / d - x / d == (y - x) / d;
  }

  /** The counter reports the support of every frequent itemset of one to
      three items. */
  lemma SupportOfFrequent(ts: seq<seq<string>>, s: Itemset, size: nat)
    requires forall i :: 0 <= i < |ts| ==> Distinct(ts[i])
    requires FrequentIn(ts, s, size)
    ensures SupportOf(TallyOf(ts, size), |ts|, s) == Some(Support(ts, s))
  {
    TallySpec(ts, size, s);
    FrequentPositive(CountIn(ts, s), |ts|);
    assert Get(TallyOf(ts, size).counts, s) == CountIn(ts, s);
    assert s in TallyOf(ts, size).counts;
  }

  /** A frequent itemset occurs at least once. */
  lemma FrequentPositive(cnt: nat, n: nat)
    requires Frequent(cnt, n)
    ensures cnt > 0
  {
  }

  /** A non-empty subset of a frequent itemset is frequent. */
  lemma SubsetFrequent(ts: seq<seq<string>>, a: Itemset, s: Itemset, size: nat)
    requires FrequentIn(ts, s, size) && a <= s && a != {}
    ensures FrequentIn(ts, a, size)
  {
    SupportMonotone(ts, a, s);
    assert |a| <= |s| by {
      SubsetCard(a, s);
    }
  }

  lemma SubsetCard(a: Itemset, s: Itemset)
    requires a <= s
    ensures |a| <= |s|
  {
    assert s == a + (s - a);
  }

  /** The check that antecedent and consequent are frequent never fails:
      both are non-empty subsets of a frequent itemset. The rule's support
      is the itemset's, its confidence that over the antecedent's support,
      its lift that over the consequent's support. */
  lemma RuleForSpec(ts: seq<seq<string>>, s: Itemset, x: string, size: nat)
    requires forall i :: 0 <= i < |ts| ==> Distinct(ts[i])
    requires FrequentIn(ts, s, size) && |s| >= 2 && x in s
    ensures Support(ts, s - {x}) > 0.0 && Support(ts, {x}) > 0.0
    ensures var a := s - {x};
            var conf := Support(ts, s) / Support(ts, a);
            RuleFor(TallyOf(ts, size), |ts|, s, x) ==
              [Rule(Join(SortedItems(a), ';'), x, Support(ts, s), conf, conf / Support(ts, {x}))]
  {
    var a := s - {x};
    assert |a| == |s| - 1;
    SubsetFrequent(ts, a, s, size);
    SubsetFrequent(ts, {x}, s, size);
    SupportOfFrequent(ts, s, size);
    SupportOfFrequent(ts, a, size);
    SupportOfFrequent(ts, {x}, size);
  }

  /** A frequent itemset of `k >= 2` items yields exactly `k` rules, one per
      item as consequent. */
  lemma RulesPerItemset(ts: seq<seq<string>>, s: Itemset, size: nat)
    requires forall i :: 0 <= i < |ts| ==> Distinct(ts[i])
    requires FrequentIn(ts, s, size) && |s| >= 2
    ensures |RulesOfItemset(TallyOf(ts, size), |ts|, s)| == |s|
  {
    var items := SortedItems(s);
    var f := RuleForOf(TallyOf(ts, size), |ts|, s);
    forall j | 0 <= j < |items| ensures |f(items[j])| == 1 {
      RuleForSpec(ts, s, items[j], size);
    }
    FlatMapLength(f, items, 1);
  }

  /** Confidence is at most 1, since an itemset is in no more transactions
      than its antecedent; support is positive and at most the confidence;
      lift is positive. */
  lemma ConfidenceBounds(ts: seq<seq<string>>, s: Itemset, x: string, size: nat)
    requires forall i :: 0 <= i < |ts| ==> Distinct(ts[i])
    requires FrequentIn(ts, s, size) && |s| >= 2 && x in s
    ensures |RuleFor(TallyOf(ts, size), |ts|, s, x)| == 1
    ensures var r := RuleFor(TallyOf(ts, size), |ts|, s, x)[0];
            0.0 < r.support <= r.confidence <= 1.0 && r.lift > 0.0
  {
    RuleForSpec(ts, s, x, size);
    SupportMonotone(ts, s - {x}, s);
    var sab := Support(ts, s);
    var sa := Support(ts, s - {x});
    var sb := Support(ts, {x});
    assert sab > 0.0;
    RatioBounds(sab, sa, sb);
  }

  /** For `0 < p <= q <= 1` and `0 < b`: `p <= p / q <= 1` and
      `p / q / b > 0`. */
  lemma RatioBounds(p: real, q: real, b: real)
    requires 0.0 < p <= q <= 1.0 && 0.0 < b
    ensures p <= p / q <= 1.0 && p / q / b > 0.0
  {
    var r := p / q;
    assert r * q == p;
    assert r > 0.0;
    assert p == r * q <= r * 1.0;
    assert r / b * b == r;
  }

  /** The miner's output is the generated rules, ordered by confidence then
      support, both descending. */
  lemma MinedRulesSorted(rows: seq<MergedRow>, size: nat)
    ensures SortedBy(MinedRules(rows, size), ConfidenceFirst)
    ensures var ts := Transactions(rows);
            |ts| > 0 ==> multiset(MinedRules(rows, size)) == multiset(Generated(TallyOf(ts, size), |ts|))
  {
    var ts := Transactions(rows);
    ConfidenceFirstTotalPreorder();
    if |ts| > 0 {
      SortBySorted(Generated(TallyOf(ts, size), |ts|), ConfidenceFirst);
      SortByPermutes(Generated(TallyOf(ts, size), |ts|), ConfidenceFirst);
    }
  }

  /** Without rows, or when no row has an item, there are no rules. */
  lemma NoTransactionsNoRules(rows: seq<MergedRow>, size: nat)
    requires forall i :: 0 <= i < |rows| ==> ItemsOf(rows[i]) == {}
    ensures MinedRules(rows, size) == []
  {
    NoItemsNoTransactions(rows);
  }

  lemma {:induction false} NoItemsNoTransactions(rows: seq<MergedRow>)
    requires forall i :: 0 <= i < |rows| ==> ItemsOf(rows[i]) == {}
    ensures Transactions(rows) == []
  {
    if rows != [] {
      NoItemsNoTransactions(rows[..|rows| - 1]);
    }
  }
}
