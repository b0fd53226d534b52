// Rule-based boosting of the recommendation candidates: every association
// rule whose antecedent the user's own filters satisfy adds
// `confidence * support` to each candidate (institute, program) whose
// attributes contain the rule's consequent.

module Boost {
  import opened Seqs
  import opened Text
  import opened Normalize
  import RuleMiner

  /** A row of the rules table. The numbers are as `float` parses the
      stored text: `None` when it does not parse. */
  datatype RuleRow = RuleRow(antecedent: string, consequent: string, confidence: Option<real>, support: Option<real>)

  /** A candidate row as the boost sees it: its cleaned text columns. */
  datatype Candidate = Candidate(institute: string, program: string, stream: string, quota: string,
                                 category: string, district: string)

  /** The key boosts are kept under. */
  type Key = (string, string)

  function KeyOf(c: Candidate): Key
  {
    (c.institute, c.program)
  }

  // ---------------------------------------------------------------------
  // Parsing the item lists of a rule
  // ---------------------------------------------------------------------

  /** The items of a `;`-separated list: split, strip, drop blanks. */
  function Pieces(text: string): set<string>
  {
    PiecesOf(SplitAny(text, RuleMiner.IsSemicolon))
  }

  /** An item text as the miner writes it: non-blank, no surrounding
      space, no `;`. */
  predicate CleanItem(x: string)
  {
    x != "" && !IsSpace(x[0]) && !IsSpace(x[|x| - 1]) && forall i :: 0 <= i < |x| ==> x[i] != ';'
  }

  /** Pieces that are already clean items are kept as they are. */
  lemma {:induction false} PiecesOfClean(parts: seq<string>)
    requires forall k :: 0 <= k < |parts| ==> CleanItem(parts[k])
    ensures forall y :: y in PiecesOf(parts) <==> y in parts
  {
    if parts != [] {
      var init := parts[..|parts| - 1];
      var last := parts[|parts| - 1];
      PiecesOfClean(init);
      StripStripped(last);
      assert parts == init + [last];
    }
  }

  /** The empty list has no items. */
  lemma EmptyItemList()
    ensures Pieces("") == {}
  {
    assert SplitAny("", RuleMiner.IsSemicolon) == [""];
    StripStripped("");
    assert PiecesOf([""]) == PiecesOf([""][..0]);
  }

  /** Clean items joined by `;` split back into those items. */
  lemma JoinedItemsParse(items: seq<string>)
    requires items != []
    requires forall k :: 0 <= k < |items| ==> CleanItem(items[k])
    ensures forall y :: y in Pieces(Join(items, ';')) <==> y in items
  {
    forall k, i | 0 <= k < |items| && 0 <= i < |items[k]|
      ensures !RuleMiner.IsSemicolon(items[k][i])
    {
      assert CleanItem(items[k]);
    }
    SplitJoin(items, ';', RuleMiner.IsSemicolon);
    PiecesOfClean(items);
  }

  /** Round trip: the text the miner stores for an itemset (its items in
      ascending order, joined by `;`) parses back to that itemset. */
  lemma ItemListRoundTrip(s: set<string>)
    requires forall x :: x in s ==> CleanItem(x)
    ensures Pieces(Join(SortedItems(s), ';')) == s
  {
    var items := SortedItems(s);
    if s == {} {
      assert items == [];
      EmptyItemList();
    } else {
      assert forall k :: 0 <= k < |items| ==> items[k] in s;
      JoinedItemsParse(items);
    }
  }

  /** A single stored consequent parses back to itself. */
  lemma SingleItemRoundTrip(x: string)
    requires CleanItem(x)
    ensures Pieces(x) == {x}
  {
    forall i | 0 <= i < |x| ensures !RuleMiner.IsSemicolon(x[i]) {
    }
    SplitNoSep(x, RuleMiner.IsSemicolon);
    PiecesOfClean([x]);
  }

  // ---------------------------------------------------------------------
  // Item sets of the user and of the candidates
  // ---------------------------------------------------------------------

  /** The values of program, stream, quota, category and district, in the
      order of the rule attributes; the user's filters and each candidate
      row are read this way. */
  function AttrValues(program: string, stream: string, quota: string, category: string, district: string): (cells: seq<Cell>)
    ensures |cells| == |RuleMiner.Attributes|
  {
    [Val(program), Val(stream), Val(quota), Val(category), Val(district)]
  }

  /** The user's cleaned filters, in attribute order. */
  function FilterCells(q: UserFilters): seq<Cell>
  {
    AttrValues(q.program, q.stream, q.quota, q.category, q.district)
  }

  /** The cleaned user inputs as the boost reads them (the category
      without the tuition-fee-waiver default). */
  datatype UserFilters = UserFilters(program: string, stream: string, quota: string, category: string, district: string)

  /** The items the user supplied: one per non-blank filter. */
  function UserItems(q: UserFilters): RuleMiner.Itemset
  {
    RuleMiner.ItemsFrom(RuleMiner.Attributes, FilterCells(q))
  }

  /** A candidate's attribute values, in attribute order. */
  function CandidateCells(c: Candidate): seq<Cell>
  {
    AttrValues(c.program, c.stream, c.quota, c.category, c.district)
  }

  /** A candidate's items: one per non-blank attribute. */
  function CandidateItems(c: Candidate): RuleMiner.Itemset
  {
    RuleMiner.ItemsFrom(RuleMiner.Attributes, CandidateCells(c))
  }

  /** The item set of every candidate key; a later row with the same key
      replaces an earlier one (`IndexByKeys`, `IndexByLast`). */
  function CandidateAttrs(cands: seq<Candidate>): map<Key, RuleMiner.Itemset>
  {
    IndexBy(cands, KeyOf, CandidateItems)
  }

  // ---------------------------------------------------------------------
  // The boost of one candidate
  // ---------------------------------------------------------------------

  /** What one applicable rule adds: `float(confidence) * float(support)`,
      0.0 when either does not parse. */
  function RuleValue(r: RuleRow): real
  {
    match (r.confidence, r.support)
    case (Some(c), Some(s)) => c * s
    case _ => 0.0
  }

  /** The rule fires for the user: a non-empty antecedent, all of whose
      items the user supplied. */
  predicate Fires(r: RuleRow, user: set<string>)
  {
    Pieces(r.antecedent) != {} && Pieces(r.antecedent) <= user
  }

  /** The rule fires and the candidate has every item of the consequent. */
  predicate Hits(r: RuleRow, user: set<string>, cand: set<string>)
  {
    Fires(r, user) && Pieces(r.consequent) <= cand
  }

  /** The boost of a candidate with items `cand`: the sum of the values of
      the rules that hit it, in rule order. */
  function BoostOf(rules: seq<RuleRow>, user: set<string>, cand: set<string>): real
  {
    if rules == [] then 0.0
    else
      var r := rules[|rules| - 1];
      BoostOf(rules[..|rules| - 1], user, cand) + (if Hits(r, user, cand) then RuleValue(r) else 0.0)
  }

  /** `boosts.get(key, 0.0)`. */
  function Lookup(boosts: map<Key, real>, k: Key): real
  {
    if k in boosts then boosts[k] else 0.0
  }

  /** The boost the table gives key `k`. */
  function BoostFor(rules: seq<RuleRow>, cands: seq<Candidate>, q: UserFilters, k: Key): real
  {
    var attrs := CandidateAttrs(cands);
    if k in attrs then BoostOf(rules, UserItems(q), attrs[k]) else 0.0
  }

  lemma BoostSnoc(rules: seq<RuleRow>, user: set<string>, cand: set<string>, i: int)
    requires 0 <= i < |rules|
    ensures BoostOf(rules[..i + 1], user, cand) ==
            BoostOf(rules[..i], user, cand) + (if Hits(rules[i], user, cand) then RuleValue(rules[i]) else 0.0)
  {
    assert rules[..i + 1][..i] == rules[..i];
  }

  // ---------------------------------------------------------------------
  // The loops
  // ---------------------------------------------------------------------

  /** `_compute_boosts_from_rules`: a boost per candidate key. No rules give
      an empty table; otherwise each key gets the boost of its item set and
      keys of no candidate get nothing. */
  method ComputeBoosts(rules: seq<RuleRow>, cands: seq<Candidate>, q: UserFilters) returns (boosts: map<Key, real>)
    ensures rules == [] ==> boosts == map[]
    ensures boosts.Keys <= CandidateAttrs(cands).Keys
    ensures forall k :: Lookup(boosts, k) == BoostFor(rules, cands, q, k)
  {
    boosts := map[];
    if rules == [] {
      return;
    }
    var attrs := BuildCandidateAttrs(cands);
    var user := RuleMiner.CollectItems(RuleMiner.Attributes, FilterCells(q));
    for i := 0 to |rules|
      invariant boosts.Keys <= attrs.Keys
      invariant forall k :: Lookup(boosts, k) == (if k in attrs then BoostOf(rules[..i], user, attrs[k]) else 0.0)
    {
      var ante := ParsePieces(rules[i].antecedent);
      var cons := ParsePieces(rules[i].consequent);
      ghost var prev := boosts;
      if ante != {} && ante <= user {
        boosts := AddToMatching(boosts, attrs, cons, RuleValue(rules[i]));
      }
      BoostStep(rules, i, user, attrs, prev, boosts);
    }
    assert rules[..|rules|] == rules;
  }

  /** One turn of the loop over the rules keeps the table equal to the
      boosts of the rules so far. */
  lemma BoostStep(rules: seq<RuleRow>, i: int, user: set<string>, attrs: map<Key, RuleMiner.Itemset>,
                  prev: map<Key, real>, next: map<Key, real>)
    requires 0 <= i < |rules|
    requires forall k :: Lookup(prev, k) == (if k in attrs then BoostOf(rules[..i], user, attrs[k]) else 0.0)
    requires forall k :: Lookup(next, k) ==
               Lookup(prev, k) + (if k in attrs && Hits(rules[i], user, attrs[k]) then RuleValue(rules[i]) else 0.0)
    ensures forall k :: Lookup(next, k) == (if k in attrs then BoostOf(rules[..i + 1], user, attrs[k]) else 0.0)
  {
    forall k ensures Lookup(next, k) == (if k in attrs then BoostOf(rules[..i + 1], user, attrs[k]) else 0.0) {
      if k in attrs {
        BoostSnoc(rules, user, attrs[k], i);
      }
    }
  }

  /** The loop over the candidate keys for one applicable rule: every key
      whose items contain `cons` gains `value`; the others are unchanged. */
  method AddToMatching(boosts0: map<Key, real>, attrs: map<Key, RuleMiner.Itemset>, cons: set<string>, value: real)
    returns (boosts: map<Key, real>)
    requires boosts0.Keys <= attrs.Keys
    ensures boosts.Keys <= attrs.Keys
    ensures forall k :: Lookup(boosts, k) ==
              Lookup(boosts0, k) + (if k in attrs && cons <= attrs[k] then value else 0.0)
  {
    boosts := boosts0;
    var todo := attrs.Keys;
    while todo != {}
      invariant todo <= attrs.Keys
      invariant boosts.Keys <= attrs.Keys
      invariant forall k :: Lookup(boosts, k) ==
                  Lookup(boosts0, k) + (if k in attrs && k !in todo && cons <= attrs[k] then value else 0.0)
      decreases |todo|
    {
      var k :| k in todo;
      if cons <= attrs[k] {
        boosts := boosts[k := Lookup(boosts, k) + value];
      }
      todo := todo - {k};
    }
  }

  /** The loop building the candidates' item sets. */
  method BuildCandidateAttrs(cands: seq<Candidate>) returns (attrs: map<Key, RuleMiner.Itemset>)
    ensures attrs == CandidateAttrs(cands)
  {
    attrs := map[];
    for i := 0 to |cands|
      invariant attrs == CandidateAttrs(cands[..i])
    {
      var items := RuleMiner.CollectItems(RuleMiner.Attributes, CandidateCells(cands[i]));
      attrs := attrs[KeyOf(cands[i]) := items];
      IndexBySnoc(cands, KeyOf, CandidateItems, i);
    }
    assert cands[..|cands|] == cands;
  }

  /** The comprehension parsing one item list. */
  method ParsePieces(text: string) returns (items: set<string>)
    ensures items == Pieces(text)
  {
    var parts := SplitAny(text, RuleMiner.IsSemicolon);
    items := {};
    for j := 0 to |parts|
      invariant items == PiecesOf(parts[..j])
    {
      var p := Strip(parts[j]);
      if p != "" {
        items := items + {p};
      }
      PiecesOfSnoc(parts, j);
    }
    assert parts[..|parts|] == parts;
  }

  // ---------------------------------------------------------------------
  // Properties
  // ---------------------------------------------------------------------

  /** Rules with non-negative numbers never lower a score. */
  lemma {:induction false} BoostNonNegative(rules: seq<RuleRow>, user: set<string>, cand: set<string>)
    requires forall i :: 0 <= i < |rules| ==> RuleValue(rules[i]) >= 0.0
    ensures BoostOf(rules, user, cand) >= 0.0
  {
    if rules != [] {
      BoostNonNegative(rules[..|rules| - 1], user, cand);
    }
  }

  /** A candidate with more items collects at least the boost of one with
      fewer, when no rule is worth less than nothing. */
  lemma {:induction false} BoostMonotone(rules: seq<RuleRow>, user: set<string>, small: set<string>, large: set<string>)
    requires small <= large
    requires forall i :: 0 <= i < |rules| ==> RuleValue(rules[i]) >= 0.0
    ensures BoostOf(rules, user, small) <= BoostOf(rules, user, large)
  {
    if rules != [] {
      BoostMonotone(rules[..|rules| - 1], user, small, large);
    }
  }

  /** A user who supplied no filter gets no boost at all. */
  lemma {:induction false} NoFiltersNoBoost(rules: seq<RuleRow>, cand: set<string>)
    ensures BoostOf(rules, {}, cand) == 0.0
  {
    if rules != [] {
      NoFiltersNoBoost(rules[..|rules| - 1], cand);
    }
  }

  /** Boosts add up over a split rule table. */
  lemma {:induction false} BoostAppend(a: seq<RuleRow>, b: seq<RuleRow>, user: set<string>, cand: set<string>)
    ensures BoostOf(a + b, user, cand) == BoostOf(a, user, cand) + BoostOf(b, user, cand)
  {
    if b != [] {
      assert (a + b)[..|a + b| - 1] == a + b[..|b| - 1];
      BoostAppend(a, b[..|b| - 1], user, cand);
    } else {
      assert a + b == a;
    }
  }

  /** A rule whose numbers do not parse adds nothing. */
  lemma UnparsableRuleAddsNothing(rules: seq<RuleRow>, r: RuleRow, user: set<string>, cand: set<string>)
    requires r.confidence.None? || r.support.None?
    ensures BoostOf(rules + [r], user, cand) == BoostOf(rules, user, cand)
  {
    assert (rules + [r])[..|rules|] == rules;
  }

  /** The row a mined rule is stored as. */
  function RowOf(r: RuleMiner.Rule): RuleRow
  {
    RuleRow(r.antecedent, r.consequent, Some(r.confidence), Some(r.support))
  }

  /** A mined rule of itemset `s` with consequent `x`, read back from its
      stored row, has antecedent `s - {x}` and consequent `{x}`: it fires
      for a user supplying `s - {x}` and hits a candidate holding `x`. */
  lemma MinedRuleReadsBack(ts: seq<seq<string>>, s: RuleMiner.Itemset, x: string, size: nat)
    requires forall i :: 0 <= i < |ts| ==> Distinct(ts[i])
    requires RuleMiner.FrequentIn(ts, s, size) && |s| >= 2 && x in s
    requires forall y :: y in s ==> CleanItem(y)
    ensures var rs := RuleMiner.RuleFor(RuleMiner.TallyOf(ts, size), |ts|, s, x);
            |rs| == 1 && Pieces(RowOf(rs[0]).antecedent) == s - {x} && Pieces(RowOf(rs[0]).consequent) == {x}
  {
    RuleMiner.RuleForSpec(ts, s, x, size);
    ItemListRoundTrip(s - {x});
    SingleItemRoundTrip(x);
  }
}
