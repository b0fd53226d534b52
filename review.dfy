/** Aspect-based scoring of one college review (`analyze_review`): the
    review is lower-cased and tokenised, keyword weights are summed per
    aspect, each aspect gets a clipped score, and the mean of the five
    scores is bucketed into a 1-5 star rating. The VADER compound polarity
    and the NLTK stop-word list come in as parameters. */
module ReviewUpdate {
  import opened Seqs
  import opened Text

  const AspectMaxScore: real := 10.0
  const ScoreScalingFactor: real := 0.5

  /** One entry of a keyword map: a word or a phrase and its integer weight. */
  datatype Keyword = Keyword(phrase: string, weight: int)

  /** An aspect with its positive and its negative keyword maps. */
  datatype Aspect = Aspect(name: string, pos: seq<Keyword>, neg: seq<Keyword>)

  /** `ASPECT_KEYWORDS`, in its dictionary order. */
  const AspectKeywords: seq<Aspect> := [
    Aspect("professor",
      [Keyword("helpful", 4), Keyword("knowledgeable", 4), Keyword("experienced", 3),
       Keyword("supportive", 3), Keyword("excellent teaching", 5), Keyword("friendly", 2)],
      [Keyword("unresponsive", 5), Keyword("rude", 4), Keyword("inexperienced", 3),
       Keyword("unhelpful", 3), Keyword("strict", 2), Keyword("slow", 2)]),
    Aspect("campus",
      [Keyword("beautiful", 5), Keyword("clean", 4), Keyword("vast", 3), Keyword("modern", 3),
       Keyword("spacious", 2), Keyword("green", 3), Keyword("safe", 4)],
      [Keyword("crowded", 5), Keyword("old", 4), Keyword("small", 3), Keyword("dirty", 3),
       Keyword("messy", 2), Keyword("unsafe", 4)]),
    Aspect("mess",
      [Keyword("tasty", 5), Keyword("hygienic", 4), Keyword("variety", 4), Keyword("good food", 3),
       Keyword("cheap", 2), Keyword("delicious", 4)],
      [Keyword("unhygienic", 5), Keyword("bad food", 4), Keyword("tasteless", 3),
       Keyword("monotonous", 3), Keyword("expensive", 2), Keyword("poor quality", 5)]),
    Aspect("placements",
      [Keyword("strong", 5), Keyword("high package", 4), Keyword("good companies", 4),
       Keyword("100%", 3), Keyword("supportive cell", 3), Keyword("great opportunities", 5)],
      [Keyword("poor", 5), Keyword("no placement", 4), Keyword("less package", 3),
       Keyword("fake", 2), Keyword("few companies", 2), Keyword("low success", 5)]),
    Aspect("infrastructure",
      [Keyword("modern labs", 5), Keyword("updated", 4), Keyword("fast wifi", 3),
       Keyword("good library", 3), Keyword("ample equipment", 2), Keyword("new buildings", 4)],
      [Keyword("outdated", 5), Keyword("broken", 4), Keyword("slow wifi", 3),
       Keyword("insufficient", 2), Keyword("old equipment", 4), Keyword("poor maintenance", 5)])
  ]

  /** The row of review columns `analyze_review` returns. */
  datatype Analysis = Analysis(
    wordCount: nat, sentiment: real,
    mess: real, professor: real, campus: real, placements: real, infrastructure: real,
    overall: real, rating: int)

  /** What a missing or empty review gets: zero scores and a neutral rating. */
  const Unreviewed: Analysis := Analysis(0, 0.0, 0.0, 0.0, 0.0, 0.0, 0.0, 0.0, 3)

  // ---------------------------------------------------------------------
  // Tokenising

  /** `\w` on ASCII: letters, digits and the underscore. */
  predicate IsWordChar(c: char)
  {
    'a' <= c <= 'z' || 'A' <= c <= 'Z' || IsDigit(c) || c == '_'
  }

  /** What `re.sub(r'[^\w\s]', '', ...)` keeps. */
  predicate Kept(c: char)
  {
    IsWordChar(c) || IsSpace(c)
  }

  /** The text with punctuation removed. */
  function StripPunctuation(text: string): (r: string)
    ensures forall i :: 0 <= i < |r| ==> Kept(r[i])
  {
    Filter(text, Kept)
  }

  /** The words of the punctuation-free text that are not stop words and
      are longer than two characters. */
  function Tokens(text: string, stopWords: set<string>): seq<string>
  {
    Filter(Words(StripPunctuation(text)), IsToken(stopWords))
  }

  /** The condition on the words in the token list comprehension. */
  function IsToken(stopWords: set<string>): string -> bool
  {
    (w: string) => w !in stopWords && |w| > 2
  }

  /** A token is exactly a word of the punctuation-free text that is not a
      stop word and has more than two characters; every token is made of
      word characters only. */
  lemma TokensSpec(text: string, stopWords: set<string>)
    ensures forall t :: t in Tokens(text, stopWords) <==>
      t in Words(StripPunctuation(text)) && t !in stopWords && |t| > 2
    ensures forall k :: 0 <= k < |Tokens(text, stopWords)| ==> |Tokens(text, stopWords)[k]| > 2
    ensures forall k, i :: 0 <= k < |Tokens(text, stopWords)| && 0 <= i < |Tokens(text, stopWords)[k]| ==>
      IsWordChar(Tokens(text, stopWords)[k][i])
  {
    var clean := StripPunctuation(text);
    var words := Words(clean);
    FilterIn(words, IsToken(stopWords));
    WordsKeep(clean, Kept);
    forall k, i | 0 <= k < |Tokens(text, stopWords)| && 0 <= i < |Tokens(text, stopWords)[k]|
      ensures IsWordChar(Tokens(text, stopWords)[k][i])
    {
      var t := Tokens(text, stopWords)[k];
      var j :| 0 <= j < |words| && words[j] == t;
      assert Kept(words[j][i]) && !IsSpace(words[j][i]);
    }
  }

  // ---------------------------------------------------------------------
  // Keyword weights

  /** The sum of a keyword map's weights. */
  function TotalWeight(ws: seq<Keyword>): int
  {
    if ws == [] then 0 else TotalWeight(ws[..|ws| - 1]) + ws[|ws| - 1].weight
  }

  /** Whether a keyword occurs in the text. */
  function OccursIn(text: string): Keyword -> bool
  {
    (k: Keyword) => Contains(text, k.phrase)
  }

  /** What the phrase pass adds for one keyword. */
  function PhraseHit(text: string, k: Keyword): int
  {
    if Contains(text, k.phrase) then k.weight else 0
  }

  /** The phrase pass over one keyword map. */
  function PhraseWeight(text: string, ws: seq<Keyword>): int
  {
    if ws == [] then 0 else PhraseWeight(text, ws[..|ws| - 1]) + PhraseHit(text, ws[|ws| - 1])
  }

  predicate SingleWord(k: Keyword)
  {
    ' ' !in k.phrase
  }

  /** What the token pass adds for one token and one keyword. */
  function TokenHit(token: string, k: Keyword): int
  {
    if SingleWord(k) && token == k.phrase then k.weight else 0
  }

  /** What the token pass adds for one token over one keyword map. */
  function MatchWeight(token: string, ws: seq<Keyword>): int
  {
    if ws == [] then 0 else MatchWeight(token, ws[..|ws| - 1]) + TokenHit(token, ws[|ws| - 1])
  }

  /** The token pass over all tokens and one keyword map. */
  function TokenWeight(tokens: seq<string>, ws: seq<Keyword>): int
  {
    if tokens == [] then 0
    else TokenWeight(tokens[..|tokens| - 1], ws) + MatchWeight(tokens[|tokens| - 1], ws)
  }

  /** Both passes over one keyword map: `total_pos_weight` or
      `total_neg_weight`. */
  function Weight(text: string, tokens: seq<string>, ws: seq<Keyword>): int
  {
    PhraseWeight(text, ws) + TokenWeight(tokens, ws)
  }

  /** `np.clip`. */
  function Clip(x: real, lo: real, hi: real): real
    requires lo <= hi
  {
    if x < lo then lo else if x > hi then hi else x
  }

  /** `5 + raw * SCORE_SCALING_FACTOR`, clipped to `[1, ASPECT_MAX_SCORE]`. */
  function Scale(raw: int): real
  {
    Clip(5.0 + raw as real * ScoreScalingFactor, 1.0, AspectMaxScore)
  }

  function AspectScore(text: string, tokens: seq<string>, a: Aspect): real
  {
    Scale(Weight(text, tokens, a.pos) - Weight(text, tokens, a.neg))
  }

  function AspectScores(text: string, tokens: seq<string>, aspects: seq<Aspect>): (r: seq<real>)
    ensures |r| == |aspects|
  {
    seq(|aspects|, i requires 0 <= i < |aspects| => AspectScore(text, tokens, aspects[i]))
  }

  /** The star rating for an overall aspect score. */
  function Rating(overall: real): int
  {
    if overall >= 8.5 then 5
    else if overall >= 6.5 then 4
    else if overall >= 4.5 then 3
    else if overall >= 2.5 then 2
    else 1
  }

  predicate Missing(review: Option<string>)
  {
    review.None? || review.value == ""
  }

  /** `analyze_review`: `sentiment` is the VADER compound polarity of the
      review and `stopWords` the English stop-word list. */
  function Analyze(review: Option<string>, sentiment: real, stopWords: set<string>): Analysis
  {
    if Missing(review) then Unreviewed
    else
      var text := Lower(review.value);
      var tokens := Tokens(text, stopWords);
      var scores := AspectScores(text, tokens, AspectKeywords);
      var overall := Mean(scores);
      Analysis(|tokens|, sentiment, scores[2], scores[0], scores[1], scores[3], scores[4],
               overall, Rating(overall))
  }

  // ---------------------------------------------------------------------
  // The scoring loops

  /** The phrase pass over one keyword map. */
  method SumPhrases(text: string, ws: seq<Keyword>) returns (w: int)
    ensures w == PhraseWeight(text, ws)
  {
    w := 0;
    for j := 0 to |ws|
      invariant w == PhraseWeight(text, ws[..j])
    {
      assert ws[..j + 1][..j] == ws[..j];
      if Contains(text, ws[j].phrase) {
        w := w + ws[j].weight;
      }
    }
    assert ws[..|ws|] == ws;
  }

  /** The innermost loop of the token pass: one token against one keyword
      map, comparing only keywords without a space. */
  method MatchToken(token: string, ws: seq<Keyword>) returns (w: int)
    ensures w == MatchWeight(token, ws)
  {
    w := 0;
    for j := 0 to |ws|
      invariant w == MatchWeight(token, ws[..j])
    {
      assert ws[..j + 1][..j] == ws[..j];
      if ' ' !in ws[j].phrase && token == ws[j].phrase {
        w := w + ws[j].weight;
      }
    }
    assert ws[..|ws|] == ws;
  }

  /** The token pass of one aspect, accumulating positive and negative
      weight together token by token. */
  method SumTokenMatches(tokens: seq<string>, a: Aspect) returns (pos: int, neg: int)
    ensures pos == TokenWeight(tokens, a.pos)
    ensures neg == TokenWeight(tokens, a.neg)
  {
    pos, neg := 0, 0;
    for j := 0 to |tokens|
      invariant pos == TokenWeight(tokens[..j], a.pos)
      invariant neg == TokenWeight(tokens[..j], a.neg)
    {
      assert tokens[..j + 1][..j] == tokens[..j];
      var p := MatchToken(tokens[j], a.pos);
      var n := MatchToken(tokens[j], a.neg);
      pos, neg := pos + p, neg + n;
    }
    assert tokens[..|tokens|] == tokens;
  }

  /** One aspect's score: phrase pass, token pass, scaling and clipping. */
  method ScoreAspect(text: string, tokens: seq<string>, a: Aspect) returns (score: real)
    ensures score == AspectScore(text, tokens, a)
  {
    var pos := SumPhrases(text, a.pos);
    var neg := SumPhrases(text, a.neg);
    var tokenPos, tokenNeg := SumTokenMatches(tokens, a);
    pos, neg := pos + tokenPos, neg + tokenNeg;
    var raw := pos - neg;
    score := 5.0 + raw as real * ScoreScalingFactor;
    if score < 1.0 {
      score := 1.0;
    } else if score > AspectMaxScore {
      score := AspectMaxScore;
    }
  }

  /** The loop over the aspects filling `aspect_scores`. */
  method ScoreAspects(text: string, tokens: seq<string>, aspects: seq<Aspect>) returns (scores: seq<real>)
    ensures scores == AspectScores(text, tokens, aspects)
  {
    scores := [];
    for i := 0 to |aspects|
      invariant scores == AspectScores(text, tokens, aspects[..i])
    {
      var s := ScoreAspect(text, tokens, aspects[i]);
      scores := scores + [s];
    }
    assert aspects[..|aspects|] == aspects;
  }

  /** `analyze_review`. */
  method AnalyzeReview(review: Option<string>, sentiment: real, stopWords: set<string>) returns (r: Analysis)
    ensures r == Analyze(review, sentiment, stopWords)
  {
    if review.None? || review.value == "" {
      return Unreviewed;
    }
    var text := Lower(review.value);
    var tokens := Tokens(text, stopWords);
    var scores := ScoreAspects(text, tokens, AspectKeywords);
    var overall := Mean(scores);
    var rating: int;
    if overall >= 8.5 {
      rating := 5;
    } else if overall >= 6.5 {
      rating := 4;
    } else if overall >= 4.5 {
      rating := 3;
    } else if overall >= 2.5 {
      rating := 2;
    } else {
      rating := 1;
    }
    r := Analysis(|tokens|, sentiment, scores[2], scores[0], scores[1], scores[3], scores[4],
                  overall, rating);
  }

  // ---------------------------------------------------------------------
  // Properties

  /** A missing or empty review gets no words, zero sentiment, zero scores
      and the neutral rating 3. */
  lemma MissingReviewDefaults(review: Option<string>, sentiment: real, stopWords: set<string>)
    requires Missing(review)
    ensures var r := Analyze(review, sentiment, stopWords);
      r.wordCount == 0 && r.sentiment == 0.0 && r.rating == 3 && r.overall == 0.0 &&
      r.mess == 0.0 && r.professor == 0.0 && r.campus == 0.0 && r.placements == 0.0 &&
      r.infrastructure == 0.0
  {
  }

  /** The phrase pass counts each keyword that occurs in the text once,
      however often it occurs: it is the total weight of the occurring
      keywords. */
  lemma {:induction false} PhraseWeightOnce(text: string, ws: seq<Keyword>)
    ensures PhraseWeight(text, ws) == TotalWeight(Filter(ws, OccursIn(text)))
  {
    if ws != [] {
      var init := ws[..|ws| - 1];
      var last := ws[|ws| - 1];
      PhraseWeightOnce(text, init);
      assert ws == init + [last];
      FilterSnoc(init, last, OccursIn(text));
      var f := Filter(init, OccursIn(text));
      assert PhraseHit(text, last) == if OccursIn(text)(last) then last.weight else 0;
      if OccursIn(text)(last) {
        TotalWeightSnoc(f, last);
      } else {
        assert f + [] == f;
      }
    }
  }

  lemma TotalWeightSnoc(ws: seq<Keyword>, k: Keyword)
    ensures TotalWeight(ws + [k]) == TotalWeight(ws) + k.weight
  {
    assert (ws + [k])[..|ws + [k]| - 1] == ws;
  }

  /** The weight of the single-word keywords, each as often as it occurs in
      the bag of tokens. */
  function CountWeight(bag: multiset<string>, ws: seq<Keyword>): int
  {
    if ws == [] then 0
    else
      var k := ws[|ws| - 1];
      CountWeight(bag, ws[..|ws| - 1]) + (if SingleWord(k) then k.weight * bag[k.phrase] else 0)
  }

  lemma {:induction false} CountWeightAdd(bag: multiset<string>, t: string, ws: seq<Keyword>)
    ensures CountWeight(bag + multiset{t}, ws) == CountWeight(bag, ws) + MatchWeight(t, ws)
  {
    if ws != [] {
      var k := ws[|ws| - 1];
      CountWeightAdd(bag, t, ws[..|ws| - 1]);
      var n := (bag + multiset{t})[k.phrase];
      assert n == bag[k.phrase] + (if t == k.phrase then 1 else 0);
      assert k.weight * n == k.weight * bag[k.phrase] + (if t == k.phrase then k.weight else 0);
    }
  }

  /** The token pass counts a single-word keyword once per equal token, in
      any token order, and never counts a keyword with a space. */
  lemma {:induction false} TokenWeightCounts(tokens: seq<string>, ws: seq<Keyword>)
    ensures TokenWeight(tokens, ws) == CountWeight(multiset(tokens), ws)
  {
    if tokens == [] {
      CountWeightEmpty(ws);
    } else {
      var init := tokens[..|tokens| - 1];
      var t := tokens[|tokens| - 1];
      TokenWeightCounts(init, ws);
      assert tokens == init + [t];
      assert multiset(tokens) == multiset(init) + multiset{t};
      CountWeightAdd(multiset(init), t, ws);
    }
  }

  lemma {:induction false} CountWeightEmpty(ws: seq<Keyword>)
    ensures CountWeight(multiset{}, ws) == 0
  {
    if ws != [] {
      CountWeightEmpty(ws[..|ws| - 1]);
    }
  }

  /** A single-word keyword that occurs in the text is counted once by the
      phrase pass and again for every token equal to it. */
  lemma SingleWordCountedTwice(text: string, tokens: seq<string>, k: Keyword)
    requires SingleWord(k) && Contains(text, k.phrase)
    ensures Weight(text, tokens, [k]) == k.weight * (1 + multiset(tokens)[k.phrase])
  {
    assert [k][..0] == [];
    assert PhraseWeight(text, [k]) == k.weight;
    TokenWeightCounts(tokens, [k]);
    var n := multiset(tokens)[k.phrase];
    assert CountWeight(multiset(tokens), [k]) == k.weight * n;
    assert k.weight + k.weight * n == k.weight * (1 + n);
  }

  /** A keyword with a character outside `\w` (such as `100%`) never equals
      a token, so only the phrase pass can count it. */
  lemma NonWordKeywordNeverMatches(text: string, stopWords: set<string>, k: Keyword, i: int)
    requires 0 <= i < |k.phrase| && !IsWordChar(k.phrase[i])
    ensures forall j :: 0 <= j < |Tokens(text, stopWords)| ==>
      TokenHit(Tokens(text, stopWords)[j], k) == 0
  {
    TokensSpec(text, stopWords);
    forall j | 0 <= j < |Tokens(text, stopWords)| ensures TokenHit(Tokens(text, stopWords)[j], k) == 0 {
      var t := Tokens(text, stopWords)[j];
      if i < |t| {
        assert IsWordChar(t[i]);
      }
    }
  }

  /** Clipping pins the scaled difference: 1 from a difference of -8 down,
      10 from 10 up, and `5 + raw / 2` in between; so every aspect score is
      in `[1, 10]` and a whole number of halves, which rounding to one
      decimal leaves as it is. */
  lemma ScaleSpec(raw: int)
    ensures raw <= -8 ==> Scale(raw) == 1.0
    ensures raw >= 10 ==> Scale(raw) == 10.0
    ensures -8 <= raw <= 10 ==> Scale(raw) == 5.0 + raw as real / 2.0
    ensures 1.0 <= Scale(raw) <= 10.0
    ensures (2.0 * Scale(raw)).Floor as real == 2.0 * Scale(raw)
  {
    if -8 <= raw <= 10 {
      assert 2.0 * Scale(raw) == (10 + raw) as real;
    }
  }

  /** More net positive weight never lowers a score. */
  lemma ScaleMonotone(a: int, b: int)
    requires a <= b
    ensures Scale(a) <= Scale(b)
  {
  }

  lemma AspectScoreBounds(text: string, tokens: seq<string>, a: Aspect)
    ensures 1.0 <= AspectScore(text, tokens, a) <= AspectMaxScore
  {
    ScaleSpec(Weight(text, tokens, a.pos) - Weight(text, tokens, a.neg));
  }

  /** Every score of a non-empty review, and their mean, lies in `[1, 10]`;
      the lower bound is 1, not 0. */
  lemma ScoresInRange(review: Option<string>, sentiment: real, stopWords: set<string>)
    requires !Missing(review)
    ensures var r := Analyze(review, sentiment, stopWords);
      1.0 <= r.professor <= 10.0 && 1.0 <= r.campus <= 10.0 && 1.0 <= r.mess <= 10.0 &&
      1.0 <= r.placements <= 10.0 && 1.0 <= r.infrastructure <= 10.0 &&
      1.0 <= r.overall <= 10.0
  {
    var text := Lower(review.value);
    var tokens := Tokens(text, stopWords);
    var scores := AspectScores(text, tokens, AspectKeywords);
    forall i | 0 <= i < |scores| ensures 1.0 <= scores[i] <= 10.0 {
      AspectScoreBounds(text, tokens, AspectKeywords[i]);
    }
    MeanBounds(scores, 1.0, 10.0);
  }

  /** The rating is a star count from 1 to 5. */
  lemma RatingRange(overall: real)
    ensures 1 <= Rating(overall) <= 5
  {
  }

  /** A higher overall score never gets a lower rating. */
  lemma RatingMonotone(a: real, b: real)
    requires a <= b
    ensures Rating(a) <= Rating(b)
  {
  }

  /** The bucket thresholds: at least `t` stars exactly from the score
      listed for `t`. */
  lemma RatingThresholds(overall: real)
    ensures Rating(overall) == 5 <==> overall >= 8.5
    ensures Rating(overall) >= 4 <==> overall >= 6.5
    ensures Rating(overall) >= 3 <==> overall >= 4.5
    ensures Rating(overall) >= 2 <==> overall >= 2.5
  {
  }

  /** A sum of copies of one value. */
  lemma {:induction false} MeanOfEqual(s: seq<real>, c: real)
    requires s != []
    requires forall i :: 0 <= i < |s| ==> s[i] == c
    ensures Mean(s) == c
  {
    SumRealBounds(s, c, c);
    assert SumReal(s) == (|s| as real) * c;
  }

  /** A review in which every aspect's positive and negative weights cancel
      scores 5 everywhere and gets 3 stars, the same rating as a missing
      review. */
  lemma BalancedReviewIsNeutral(review: Option<string>, sentiment: real, stopWords: set<string>)
    requires !Missing(review)
    requires var text := Lower(review.value);
      forall i :: 0 <= i < |AspectKeywords| ==>
        Weight(text, Tokens(text, stopWords), AspectKeywords[i].pos) ==
        Weight(text, Tokens(text, stopWords), AspectKeywords[i].neg)
    ensures var r := Analyze(review, sentiment, stopWords);
      r.professor == 5.0 && r.campus == 5.0 && r.mess == 5.0 && r.placements == 5.0 &&
      r.infrastructure == 5.0 && r.overall == 5.0 && r.rating == 3
  {
    var text := Lower(review.value);
    var tokens := Tokens(text, stopWords);
    var scores := AspectScores(text, tokens, AspectKeywords);
    assert forall i :: 0 <= i < |scores| ==> scores[i] == 5.0;
    MeanOfEqual(scores, 5.0);
  }
}
