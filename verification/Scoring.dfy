/** Weighted scoring and ranking of candidates (agents/healer/candidate_scorer.py). */
module Scoring {
  import opened Sequences
  import opened Candidates
  import opened Rounding

  datatype Weights = Weights(
    text: real, role: real, kind: real, page: real, historical: real, name: real, stable: real, history: real)

  function Values(w: Weights): seq<real> {
    [w.text, w.role, w.kind, w.page, w.historical, w.name, w.stable, w.history]
  }

  function Components(c: Candidate): seq<real> {
    [c.text, c.role, c.kind, c.page, c.historical, c.name, c.stable, c.history]
  }

  /** `ge=0.0` on each weight, and the validator's check that one is positive. */
  ghost predicate ValidWeights(w: Weights) {
    (forall i :: 0 <= i < |Values(w)| ==> Values(w)[i] >= 0.0) && Total(Values(w)) > 0.0
  }

  function Total(w: seq<real>): real {
    if w == [] then 0.0 else w[0] + Total(w[1..])
  }

  function Dot(x: seq<real>, w: seq<real>): real
    requires |x| == |w|
  {
    if x == [] then 0.0 else x[0] * w[0] + Dot(x[1..], w[1..])
  }

  /** The unrounded score: the weighted mean of the components. */
  function WeightedMean(x: seq<real>, w: seq<real>): real
    requires |x| == |w| && Total(w) > 0.0
  {
    Dot(x, w) / Total(w)
  }

  function Clamp(x: real): real {
    if x < 0.0 then 0.0 else if x > 1.0 then 1.0 else x
  }

  /** `score_candidate` on component and weight vectors */
  function ScoreOf(x: seq<real>, w: seq<real>): real
    requires |x| == |w|
  {
    if Total(w) <= 0.0 then 0.0 else Round4(Clamp(WeightedMean(x, w)))
  }

  function Score(w: Weights, c: Candidate): real { ScoreOf(Components(c), Values(w)) }

  function Scored(w: Weights, c: Candidate): Candidate { c.(confidence := Score(w, c)) }

  function ScoredBy(w: Weights): Candidate -> Candidate {
    (c: Candidate) => Scored(w, c)
  }

  /** `rank_candidates`: score a list, then sort it in place. */
  method RankCandidates(w: Weights, candidates: seq<Candidate>) returns (ranked: seq<Candidate>)
    ensures ranked == Ranked(w, candidates)
  {
    ranked := [];
    for i := 0 to |candidates|
      invariant ranked == Map(candidates[..i], ScoredBy(w))
    {
      ranked := ranked + [Scored(w, candidates[i])];
    }
    assert candidates[..|candidates|] == candidates;
    ranked := SortDesc(ranked, Confidence);
  }

  function Ranked(w: Weights, candidates: seq<Candidate>): seq<Candidate> {
    SortDesc(Map(candidates, ScoredBy(w)), Confidence)
  }

  // ---- The score is a mean ----

  lemma Scale(x: real, y: real, w: real)
    requires x <= y && w >= 0.0
    ensures x * w <= y * w
  {
  }

  lemma {:induction false} DotMonotone(x: seq<real>, y: seq<real>, w: seq<real>)
    requires |x| == |y| == |w| && forall i :: 0 <= i < |x| ==> x[i] <= y[i] && w[i] >= 0.0
    ensures Dot(x, w) <= Dot(y, w)
  {
    if x != [] {
      assert forall i :: 0 <= i < |x[1..]| ==> x[1..][i] == x[i + 1] && y[1..][i] == y[i + 1] && w[1..][i] == w[i + 1];
      DotMonotone(x[1..], y[1..], w[1..]);
      Scale(x[0], y[0], w[0]);
    }
  }

  lemma Distribute(x: real, a: real, b: real)
    ensures x * (a + b) == x * a + x * b
  {
  }

  lemma {:induction false} DotConstant(x: seq<real>, v: real, w: seq<real>)
    requires |x| == |w| && forall i :: 0 <= i < |x| ==> x[i] == v
    ensures Dot(x, w) == v * Total(w)
  {
    if x != [] {
      DotConstant(x[1..], v, w[1..]);
      Distribute(v, w[0], Total(w[1..]));
    }
  }

  lemma DotBetween(x: seq<real>, w: seq<real>, lo: real, hi: real)
    requires |x| == |w| && forall i :: 0 <= i < |x| ==> lo <= x[i] <= hi && w[i] >= 0.0
    ensures lo * Total(w) <= Dot(x, w) <= hi * Total(w)
  {
    var low, high := seq(|x|, i => lo), seq(|x|, i => hi);
    DotMonotone(low, x, w);
    DotMonotone(x, high, w);
    DotConstant(low, lo, w);
    DotConstant(high, hi, w);
  }

  lemma DivideBetween(a: real, d: real, lo: real, hi: real)
    requires d > 0.0 && lo * d <= a <= hi * d
    ensures lo <= a / d <= hi
  {
    var q := a / d;
    assert q * d == a;
    if q < lo {
      ScaleStrict(q, lo, d);
    } else if q > hi {
      ScaleStrict(hi, q, d);
    }
  }

  lemma ScaleStrict(x: real, y: real, w: real)
    requires x < y && w > 0.0
    ensures x * w < y * w
  {
  }

  /** The unrounded score lies between any bounds of the components, so between the smallest and the largest. */
  lemma MeanBetween(c: Candidate, w: Weights, lo: real, hi: real)
    requires ValidWeights(w) && forall i :: 0 <= i < |Components(c)| ==> lo <= Components(c)[i] <= hi
    ensures lo <= WeightedMean(Components(c), Values(w)) <= hi
  {
    DotBetween(Components(c), Values(w), lo, hi);
    DivideBetween(Dot(Components(c), Values(w)), Total(Values(w)), lo, hi);
  }

  /** With components in [0, 1] the clamp never acts, and the score is the mean to within half of 0.0001. */
  lemma ScoreIsRoundedMean(c: Candidate, w: Weights)
    requires ValidWeights(w) && forall i :: 0 <= i < |Components(c)| ==> 0.0 <= Components(c)[i] <= 1.0
    ensures var m := WeightedMean(Components(c), Values(w));
            Score(w, c) == Round4(m) && m - 0.00005 <= Score(w, c) <= m + 0.00005
  {
    MeanBetween(c, w, 0.0, 1.0);
  }

  // ---- Each component counts with the weight of its name ----

  lemma TotalStep(a: real, w: seq<real>)
    ensures Total([a] + w) == a + Total(w)
  {
    assert ([a] + w)[1..] == w;
  }

  lemma TotalOfFour(a: real, b: real, c: real, d: real, w: seq<real>)
    ensures Total([a, b, c, d] + w) == a + b + c + d + Total(w)
  {
    assert [a, b, c, d] + w == [a] + ([b] + ([c] + ([d] + w)));
    TotalStep(d, w);
    TotalStep(c, [d] + w);
    TotalStep(b, [c] + ([d] + w));
    TotalStep(a, [b] + ([c] + ([d] + w)));
  }

  lemma TotalOfEight(p: seq<real>)
    requires |p| == 8
    ensures Total(p) == p[0] + p[1] + p[2] + p[3] + p[4] + p[5] + p[6] + p[7]
  {
    assert p == [p[0], p[1], p[2], p[3]] + ([p[4], p[5], p[6], p[7]] + []);
    TotalOfFour(p[0], p[1], p[2], p[3], [p[4], p[5], p[6], p[7]] + []);
    TotalOfFour(p[4], p[5], p[6], p[7], []);
  }

  function Products(x: seq<real>, w: seq<real>): (p: seq<real>)
    requires |x| == |w|
    ensures |p| == |x|
  {
    if x == [] then [] else [x[0] * w[0]] + Products(x[1..], w[1..])
  }

  lemma {:induction false} ProductAt(x: seq<real>, w: seq<real>, i: nat)
    requires i < |x| == |w|
    ensures Products(x, w)[i] == x[i] * w[i]
  {
    if i > 0 {
      ProductAt(x[1..], w[1..], i - 1);
      assert x[1..][i - 1] == x[i] && w[1..][i - 1] == w[i];
    }
  }

  lemma {:induction false} DotIsTotal(x: seq<real>, w: seq<real>)
    requires |x| == |w|
    ensures Dot(x, w) == Total(Products(x, w))
  {
    if x != [] {
      DotIsTotal(x[1..], w[1..]);
      TotalStep(x[0] * w[0], Products(x[1..], w[1..]));
    }
  }

  lemma DotByName(c: Candidate, w: Weights)
    ensures Dot(Components(c), Values(w))
         == c.text * w.text + c.role * w.role + c.kind * w.kind + c.page * w.page
            + c.historical * w.historical + c.name * w.name + c.stable * w.stable + c.history * w.history
  {
    var x, v := Components(c), Values(w);
    DotIsTotal(x, v);
    TotalOfEight(Products(x, v));
    forall i: nat | i < 8 ensures Products(x, v)[i] == x[i] * v[i] {
      ProductAt(x, v, i);
    }
  }

  /**
   * The score, over the fields: each component counts with the weight of its name.  It is the weighted mean cut to
   * [0, 1] and rounded, or 0 without any weight.
   */
  lemma {:induction false} ScoreByName(c: Candidate, w: Weights, sum: real, total: real)
    requires sum == w.text + w.role + w.kind + w.page + w.historical + w.name + w.stable + w.history
    requires total == c.text * w.text + c.role * w.role + c.kind * w.kind + c.page * w.page
                      + c.historical * w.historical + c.name * w.name + c.stable * w.stable + c.history * w.history
    ensures Score(w, c) == if sum <= 0.0 then 0.0
                           else var mean := total / sum; Round4(if mean < 0.0 then 0.0 else if mean > 1.0 then 1.0 else mean)
  {
    TotalOfEight(Values(w));
    DotByName(c, w);
  }

  /** The ranking gives each candidate that score, nothing else changed, and puts larger ones first. */
  lemma {:induction false} RankedByName(w: Weights, candidates: seq<Candidate>) returns (order: seq<Candidate>)
    ensures multiset(order) == multiset(candidates) && |Ranked(w, candidates)| == |order|
    ensures forall i :: 0 <= i < |order| ==> Ranked(w, candidates)[i] == order[i].(confidence := Score(w, order[i]))
    ensures forall i, j :: 0 <= i < j < |order| ==>
      Ranked(w, candidates)[i].confidence >= Ranked(w, candidates)[j].confidence
  {
    order := RankedIsPermutation(w, candidates);
    forall i, j | 0 <= i < j < |order|
      ensures Ranked(w, candidates)[i].confidence >= Ranked(w, candidates)[j].confidence
    {
      assert Confidence(Ranked(w, candidates)[i]) >= Confidence(Ranked(w, candidates)[j]);
    }
  }

  /** Raising any components never lowers the rounded score. */
  lemma ScoreMonotone(c: Candidate, d: Candidate, w: Weights)
    requires ValidWeights(w) && forall i :: 0 <= i < |Components(c)| ==> Components(c)[i] <= Components(d)[i]
    ensures Score(w, c) <= Score(w, d)
  {
    var x, y, t := Components(c), Components(d), Total(Values(w));
    DotMonotone(x, y, Values(w));
    assert Dot(x, Values(w)) / t <= Dot(y, Values(w)) / t;
    Round4Monotone(Clamp(WeightedMean(x, Values(w))), Clamp(WeightedMean(y, Values(w))));
  }

  lemma {:induction false} DotIgnores(x: seq<real>, y: seq<real>, w: seq<real>)
    requires |x| == |y| == |w| && forall i :: 0 <= i < |x| ==> x[i] == y[i] || w[i] == 0.0
    ensures Dot(x, w) == Dot(y, w)
  {
    if x != [] {
      assert forall i :: 0 <= i < |x[1..]| ==> x[1..][i] == x[i + 1] && y[1..][i] == y[i + 1] && w[1..][i] == w[i + 1];
      DotIgnores(x[1..], y[1..], w[1..]);
    }
  }

  /** Components with weight zero do not count. */
  lemma ZeroWeightIgnored(c: Candidate, d: Candidate, w: Weights)
    requires forall i :: 0 <= i < |Components(c)| ==> Components(c)[i] == Components(d)[i] || Values(w)[i] == 0.0
    ensures Score(w, c) == Score(w, d)
  {
    DotIgnores(Components(c), Components(d), Values(w));
  }

  // ---- Ranking ----

  /** Sorting after a change that keeps the order of keys is changing after sorting. */
  lemma {:induction false} SortAfterMap<A(!new), B(!new)>(s: seq<A>, f: A -> B, before: A -> real, after: B -> real)
    requires forall x :: x in s ==> after(f(x)) == before(x)
    ensures SortDesc(Map(s, f), after) == Map(SortDesc(s, before), f)
  {
    if s != [] {
      assert Map(s, f)[1..] == Map(s[1..], f);
      SortAfterMap(s[1..], f, before, after);
      forall x ensures x in SortDesc(s[1..], before) <==> x in s[1..] {
        SortMember(s[1..], before, x);
      }
      assert forall x :: x in s[1..] ==> x in s;
      InsertAfterMap(s[0], SortDesc(s[1..], before), f, before, after);
    }
  }

  lemma {:induction false} InsertAfterMap<A(!new), B(!new)>(x: A, s: seq<A>, f: A -> B, before: A -> real,
                                            after: B -> real)
    requires after(f(x)) == before(x) && forall y :: y in s ==> after(f(y)) == before(y)
    ensures Insert(f(x), Map(s, f), after) == Map(Insert(x, s, before), f)
  {
    if s != [] {
      assert Map(s, f)[1..] == Map(s[1..], f) && s[0] in s;
      if before(x) < before(s[0]) {
        InsertAfterMap(x, s[1..], f, before, after);
        assert Map([s[0]] + Insert(x, s[1..], before), f) == [f(s[0])] + Map(Insert(x, s[1..], before), f);
      } else {
        assert Map([x] + s, f) == [f(x)] + Map(s, f);
      }
    }
  }

  /** The ranking is a reordering of the input, each candidate with its own score and nothing else changed, best first. */
  lemma RankedIsPermutation(w: Weights, candidates: seq<Candidate>) returns (order: seq<Candidate>)
    ensures multiset(order) == multiset(candidates)
    ensures Ranked(w, candidates) == Map(order, ScoredBy(w))
    ensures Descending(Ranked(w, candidates), Confidence)
    ensures Descending(order, (c: Candidate) => Score(w, c))
  {
    var key := (c: Candidate) => Score(w, c);
    order := SortDesc(candidates, key);
    SortMultiset(candidates, key);
    SortSorted(candidates, key);
    SortAfterMap(candidates, ScoredBy(w), key, Confidence);
    SortSorted(Map(candidates, ScoredBy(w)), Confidence);
  }

  /** How history changes a candidate before scoring. */
  function WithHistory(c: Candidate, rate: string -> real): Candidate {
    if c.history > 0.0 || rate(c.selector) <= 0.0 then c else c.(history := rate(c.selector))
  }

  function EnrichedBy(rate: string -> real): Candidate -> Candidate {
    (c: Candidate) => WithHistory(c, rate)
  }

  /** `_enrich_with_healing_evidence` (agents/healer/healing_decision.py) */
  method EnrichWithEvidence(candidates: seq<Candidate>, rate: string -> real) returns (enriched: seq<Candidate>)
    ensures enriched == Map(candidates, EnrichedBy(rate))
  {
    enriched := [];
    for i := 0 to |candidates|
      invariant enriched == Map(candidates[..i], EnrichedBy(rate))
    {
      var c := candidates[i];
      if c.history > 0.0 {
        enriched := enriched + [c];
        continue;
      }
      var score := rate(c.selector);
      enriched := enriched + [if score > 0.0 then c.(history := score) else c];
    }
    assert candidates[..|candidates|] == candidates;
  }

  /** Evidence fills in the history of a candidate that has none of its own, and touches nothing else. */
  lemma EnrichedByField(c: Candidate, rate: string -> real)
    ensures EnrichedBy(rate)(c)
         == if c.history <= 0.0 && rate(c.selector) > 0.0
            then Candidate(c.selector, c.confidence, c.text, c.role, c.kind, c.page, c.historical, c.name, c.stable,
                           rate(c.selector))
            else c
  {
  }

  /**
   * With the default weight 0 for history, enriching with evidence changes neither the order nor any
   * confidence: the ranking of the enriched list is the plain ranking, enriched.
   */
  lemma HistoryIsOptIn(w: Weights, candidates: seq<Candidate>, rate: string -> real)
    requires w.history == 0.0
    ensures Ranked(w, Map(candidates, EnrichedBy(rate)))
         == Map(Ranked(w, candidates), EnrichedBy(rate))
  {
    var enrich := EnrichedBy(rate);
    var score := ScoredBy(w);
    forall c: Candidate ensures score(enrich(c)) == enrich(score(c)) {
      ZeroWeightIgnored(c, enrich(c), w);
    }
    assert Map(Map(candidates, enrich), score) == Map(Map(candidates, score), enrich);
    SortAfterMap(Map(candidates, score), enrich, Confidence, Confidence);
  }
}
