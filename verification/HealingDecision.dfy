/** The healing recommendation (agents/healer/healing_decision.py). */
module HealingDecision {
  import opened Sequences
  import opened Candidates
  import opened Scoring

  datatype Level = HIGH | MEDIUM | LOW

  datatype Action = TRY_REPLACEMENT_SELECTOR | SEARCH_CURRENT_UI | REQUIRE_ANALYSIS | NO_HEALING

  datatype Verdict = RECOMMEND_HEALING | REQUIRE_VALIDATION | REQUIRE_FURTHER_ANALYSIS | DO_NOT_HEAL

  datatype Thresholds = Thresholds(high: real, medium: real, minimum: real, ambiguity: real)

  datatype Recommendation = Recommendation(
    candidates: seq<Candidate>, selected: Option<Candidate>, level: Level, action: Action, verdict: Verdict)

  /** What the language model proposes, when its reply has the right shape. */
  datatype Proposal = Proposal(selector: string, confidence: real)

  predicate NeverHealed(t: FailureType) {
    t == ASSERTION_FAILURE || t == NETWORK_ERROR || t == APPLICATION_ERROR
  }

  function Classify(th: Thresholds, confidence: real): Level {
    if confidence >= th.high then HIGH else if confidence >= th.medium then MEDIUM else LOW
  }

  predicate Ambiguous(th: Thresholds, ranked: seq<Candidate>) {
    |ranked| >= 2 && ranked[0].confidence - ranked[1].confidence <= th.ambiguity
  }

  /** `_evaluate_candidates`: selected candidate, level and action */
  function Assessed(th: Thresholds, ranked: seq<Candidate>, t: FailureType): (Option<Candidate>, Level, Action) {
    if ranked == [] then (None, LOW, if t == UNKNOWN then REQUIRE_ANALYSIS else NO_HEALING)
    else
      var top := ranked[0];
      if top.confidence < th.minimum then (None, LOW, REQUIRE_ANALYSIS)
      else if Ambiguous(th, ranked) && top.confidence >= th.medium then
        (Some(top), Classify(th, top.confidence), REQUIRE_ANALYSIS)
      else if top.confidence < th.medium then (Some(top), LOW, SEARCH_CURRENT_UI)
      else if top.confidence < th.high then (Some(top), MEDIUM, TRY_REPLACEMENT_SELECTOR)
      else (Some(top), HIGH, TRY_REPLACEMENT_SELECTOR)
  }

  function ActionFor(th: Thresholds, confidence: real): Action {
    if confidence >= th.medium then TRY_REPLACEMENT_SELECTOR
    else if confidence >= th.minimum then SEARCH_CURRENT_UI
    else REQUIRE_ANALYSIS
  }

  /** `_determine_decision` */
  function Determined(selected: Option<Candidate>, level: Level, action: Action, ambiguous: bool): Verdict {
    if action == NO_HEALING then DO_NOT_HEAL
    else if ambiguous || action == REQUIRE_ANALYSIS then REQUIRE_FURTHER_ANALYSIS
    else if selected == None then DO_NOT_HEAL
    else if level == HIGH then RECOMMEND_HEALING
    else if level == MEDIUM then REQUIRE_VALIDATION
    else REQUIRE_FURTHER_ANALYSIS
  }

  predicate HasSelector(ranked: seq<Candidate>, selector: string) {
    exists i :: 0 <= i < |ranked| && ranked[i].selector == selector
  }

  /** The first candidate with the proposed selector, with the model's confidence in place of its own. */
  ghost predicate Chosen(ranked: seq<Candidate>, p: Proposal, c: Candidate) {
    exists i :: 0 <= i < |ranked| && ranked[i].selector == p.selector && c == ranked[i].(confidence := Clamp(p.confidence))
             && forall j :: 0 <= j < i ==> ranked[j].selector != p.selector
  }

  /** `_attempt_llm_disambiguation`, with the evaluator's check that the selector is one of the candidates */
  method Disambiguate(ranked: seq<Candidate>, proposal: Option<Proposal>) returns (r: Option<Candidate>)
    ensures r.Some? <==> proposal.Some? && HasSelector(ranked, proposal.value.selector)
    ensures r.Some? ==> Chosen(ranked, proposal.value, r.value)
  {
    if proposal == None {
      return None;
    }
    for i := 0 to |ranked|
      invariant forall j :: 0 <= j < i ==> ranked[j].selector != proposal.value.selector
    {
      if ranked[i].selector == proposal.value.selector {
        return Some(ranked[i].(confidence := Clamp(proposal.value.confidence)));
      }
    }
    return None;
  }

  /** The evaluator is asked about ambiguous rankings that the rules have left open. */
  predicate Asks(th: Thresholds, ranked: seq<Candidate>) {
    Ambiguous(th, ranked) && (ranked[0].confidence < th.minimum || ranked[0].confidence >= th.medium)
  }

  /** The candidate a recommendation is about, and whether the evaluator picked it. */
  ghost predicate Settled(th: Thresholds, ranked: seq<Candidate>, proposal: Option<Proposal>, c: Candidate) {
    if Asks(th, ranked) && proposal.Some? && HasSelector(ranked, proposal.value.selector)
    then Chosen(ranked, proposal.value, c)
    else ranked != [] && !Ambiguous(th, ranked) && c == ranked[0] && c.confidence >= th.minimum
  }

  /** What disambiguation may have answered. */
  ghost predicate Answered(ranked: seq<Candidate>, proposal: Option<Proposal>, chosen: Option<Candidate>) {
    && (chosen.Some? <==> proposal.Some? && HasSelector(ranked, proposal.value.selector))
    && (chosen.Some? ==> Chosen(ranked, proposal.value, chosen.value))
  }

  /** The recommendation from the ranking, given the evaluator's answer in case it is asked. */
  function Concluded(th: Thresholds, t: FailureType, ranked: seq<Candidate>,
                     chosen: Option<Candidate>): Recommendation {
    var (selected, level, action) := Assessed(th, ranked, t);
    if Ambiguous(th, ranked) && action == REQUIRE_ANALYSIS && chosen.Some? then
      var c := chosen.value.confidence;
      Recommendation(ranked, chosen, Classify(th, c), ActionFor(th, c),
                     Determined(chosen, Classify(th, c), ActionFor(th, c), false))
    else
      Recommendation(ranked, selected, level, action, Determined(selected, level, action, Ambiguous(th, ranked)))
  }

  /** Healing is recommended exactly for a settled candidate with high confidence. */
  ghost predicate Recommends(th: Thresholds, ranked: seq<Candidate>, proposal: Option<Proposal>, c: Candidate) {
    && Settled(th, ranked, proposal, c) && c.confidence >= th.high
    && (c.confidence >= th.medium || (Ambiguous(th, ranked) && c.confidence >= th.minimum))
  }

  lemma VerdictOfChoice(th: Thresholds, t: FailureType, ranked: seq<Candidate>, proposal: Option<Proposal>,
                        c: Candidate)
    requires Asks(th, ranked) && Answered(ranked, proposal, Some(c))
    ensures var r := Concluded(th, t, ranked, Some(c));
            && (r.verdict == RECOMMEND_HEALING <==> Recommends(th, ranked, proposal, c)) && r.selected == Some(c)
            && (r.verdict == REQUIRE_VALIDATION <==> Settled(th, ranked, proposal, c) && th.medium <= c.confidence < th.high)
            && r.verdict != DO_NOT_HEAL
  {
  }

  lemma VerdictOfRules(th: Thresholds, t: FailureType, ranked: seq<Candidate>, proposal: Option<Proposal>,
                       chosen: Option<Candidate>)
    requires Answers(th, ranked, proposal, chosen) && (Asks(th, ranked) ==> chosen == None)
    ensures var r := Concluded(th, t, ranked, chosen);
            && (r.verdict == RECOMMEND_HEALING <==>
              r.selected.Some? && Recommends(th, ranked, proposal, r.selected.value))
            && (r.verdict == REQUIRE_VALIDATION <==>
              r.selected.Some? && Settled(th, ranked, proposal, r.selected.value)
              && th.medium <= r.selected.value.confidence < th.high)
            && (r.verdict == DO_NOT_HEAL <==> ranked == [] && t != UNKNOWN)
            && (r.selected.Some? ==> ranked != [] && r.selected.value == ranked[0])
  {
  }

  function SelectorOf(c: Candidate): string { c.selector }

  function RankedFor(w: Weights, found: seq<Candidate>, rate: string -> real): seq<Candidate> {
    Ranked(w, Map(found, EnrichedBy(rate)))
  }

  /** Scoring and ranking lose no selector and add none. */
  lemma RankedSelectors(w: Weights, found: seq<Candidate>, rate: string -> real)
    ensures multiset(Map(RankedFor(w, found, rate), SelectorOf)) == multiset(Map(found, SelectorOf))
  {
    var enriched := Map(found, EnrichedBy(rate));
    var order := RankedIsPermutation(w, enriched);
    assert Map(RankedFor(w, found, rate), SelectorOf) == Map(order, SelectorOf);
    SameMultiset(order, enriched, SelectorOf);
    assert Map(enriched, SelectorOf) == Map(found, SelectorOf);
  }

  /** The evaluator's answer, where it is asked. */
  ghost predicate Answers(th: Thresholds, ranked: seq<Candidate>, proposal: Option<Proposal>, chosen: Option<Candidate>) {
    Asks(th, ranked) ==> Answered(ranked, proposal, chosen)
  }

  /** What `generate_recommendation` may return. */
  ghost predicate Recommended(w: Weights, th: Thresholds, t: FailureType, found: seq<Candidate>, rate: string -> real,
                              proposal: Option<Proposal>, r: Recommendation)
  {
    if NeverHealed(t) then r == Recommendation([], None, HIGH, NO_HEALING, DO_NOT_HEAL)
    else
      exists chosen :: Answers(th, RankedFor(w, found, rate), proposal, chosen)
                       && r == Concluded(th, t, RankedFor(w, found, rate), chosen)
  }

  /**
   * `generate_recommendation`, from the candidates found.  `proposal` is the language model's usable reply:
   * None without an evaluator, or when it fails.  Healing is recommended iff the type may be healed and a
   * settled candidate has high confidence, validation is required iff one has medium confidence, and healing is
   * refused iff the type is never healed or a known type has no candidate.
   */
  method GenerateRecommendation(w: Weights, th: Thresholds, t: FailureType, found: seq<Candidate>,
                                rate: string -> real, proposal: Option<Proposal>) returns (r: Recommendation)
    ensures Recommended(w, th, t, found, rate, proposal, r)
    ensures !NeverHealed(t) ==> r.candidates == RankedFor(w, found, rate)
    ensures r.verdict == RECOMMEND_HEALING <==>
      !NeverHealed(t) && r.selected.Some? && Recommends(th, r.candidates, proposal, r.selected.value)
    ensures r.verdict == REQUIRE_VALIDATION <==>
      !NeverHealed(t) && r.selected.Some? && Settled(th, r.candidates, proposal, r.selected.value)
      && th.medium <= r.selected.value.confidence < th.high
    ensures r.verdict == DO_NOT_HEAL <==> NeverHealed(t) || (found == [] && t != UNKNOWN)
    ensures r.selected.Some? ==> HasSelector(r.candidates, r.selected.value.selector)
  {
    if NeverHealed(t) {
      return Recommendation([], None, HIGH, NO_HEALING, DO_NOT_HEAL);
    }
    var candidates := EnrichWithEvidence(found, rate);
    var ranked := RankCandidates(w, candidates);
    SortMultiset(Map(candidates, ScoredBy(w)), Confidence);
    r := Conclude(th, t, ranked, proposal);
    assert ranked == RankedFor(w, found, rate);
    ghost var chosen :| Answers(th, ranked, proposal, chosen) && r == Concluded(th, t, ranked, chosen);
    assert Recommended(w, th, t, found, rate, proposal, r);
  }

  method Conclude(th: Thresholds, t: FailureType, ranked: seq<Candidate>, proposal: Option<Proposal>)
    returns (r: Recommendation)
    ensures r.candidates == ranked
    ensures exists chosen :: Answers(th, ranked, proposal, chosen) && r == Concluded(th, t, ranked, chosen)
    ensures r.verdict == RECOMMEND_HEALING <==> r.selected.Some? && Recommends(th, ranked, proposal, r.selected.value)
    ensures r.verdict == REQUIRE_VALIDATION <==>
      r.selected.Some? && Settled(th, ranked, proposal, r.selected.value)
      && th.medium <= r.selected.value.confidence < th.high
    ensures r.verdict == DO_NOT_HEAL <==> ranked == [] && t != UNKNOWN
    ensures r.selected.Some? ==> HasSelector(ranked, r.selected.value.selector)
  {
    var (selected, level, action) := Assessed(th, ranked, t);
    var ambiguous := Ambiguous(th, ranked);
    if ambiguous && action == REQUIRE_ANALYSIS {
      var chosen := Disambiguate(ranked, proposal);
      if chosen.Some? {
        VerdictOfChoice(th, t, ranked, proposal, chosen.value);
        selected := chosen;
        level := Classify(th, chosen.value.confidence);
        action := ActionFor(th, chosen.value.confidence);
        return Recommendation(ranked, selected, level, action, Determined(selected, level, action, false));
      }
    }
    VerdictOfRules(th, t, ranked, proposal, None);
    assert Answers(th, ranked, proposal, None);
    return Recommendation(ranked, selected, level, action, Determined(selected, level, action, ambiguous));
  }

  // ---- What a recommendation means ----

  /** The conclusion from a ranking, whatever the evaluator answers where it is asked. */
  lemma ConcludedFacts(th: Thresholds, t: FailureType, ranked: seq<Candidate>, proposal: Option<Proposal>,
                       chosen: Option<Candidate>)
    requires Answers(th, ranked, proposal, chosen)
    ensures var r := Concluded(th, t, ranked, chosen);
            && (r.verdict == RECOMMEND_HEALING <==> r.selected.Some? && Recommends(th, ranked, proposal, r.selected.value))
            && (r.verdict == RECOMMEND_HEALING ==> r.level == HIGH && r.action == ActionFor(th, r.selected.value.confidence))
            && (r.verdict == DO_NOT_HEAL <==> ranked == [] && t != UNKNOWN)
            && (Asks(th, ranked) && chosen.Some? ==> r.selected == chosen)
  {
    if Asks(th, ranked) && chosen.Some? {
      VerdictOfChoice(th, t, ranked, proposal, chosen.value);
    } else {
      VerdictOfRules(th, t, ranked, proposal, chosen);
    }
  }

  /** A candidate that may be recommended is one of the ranking, and sole, a clear leader or the evaluator's choice. */
  lemma RecommendsOneOf(th: Thresholds, ranked: seq<Candidate>, proposal: Option<Proposal>, c: Candidate)
    requires Recommends(th, ranked, proposal, c)
    ensures HasSelector(ranked, c.selector) && c.confidence >= th.high
    ensures || (|ranked| == 1 && c == ranked[0])
            || (|ranked| >= 2 && c == ranked[0] && ranked[0].confidence - ranked[1].confidence > th.ambiguity)
            || (Ambiguous(th, ranked) && proposal.Some? && Chosen(ranked, proposal.value, c))
  {
  }

  /**
   * A recommendation to heal names a selector that was found, for a failure that may be healed, with high
   * confidence; and it is the only candidate, leads clearly, or was chosen by the evaluator.
   */
  lemma {:induction false} RecommendationIsSafe(w: Weights, th: Thresholds, t: FailureType, found: seq<Candidate>,
                                                rate: string -> real, proposal: Option<Proposal>, r: Recommendation)
    requires Recommended(w, th, t, found, rate, proposal, r) && r.verdict == RECOMMEND_HEALING
    ensures !NeverHealed(t) && r.level == HIGH && r.selected.Some?
    ensures r.action == ActionFor(th, r.selected.value.confidence)
    ensures HasSelector(r.candidates, r.selected.value.selector) && r.selected.value.confidence >= th.high
    ensures || (|r.candidates| == 1 && r.selected == Some(r.candidates[0]))
            || (|r.candidates| >= 2 && r.selected == Some(r.candidates[0])
                && r.candidates[0].confidence - r.candidates[1].confidence > th.ambiguity)
            || (Ambiguous(th, r.candidates) && proposal.Some? && Chosen(r.candidates, proposal.value, r.selected.value))
    ensures multiset(Map(r.candidates, SelectorOf)) == multiset(Map(found, SelectorOf))
  {
    var ranked := RankedFor(w, found, rate);
    var chosen :| Answers(th, ranked, proposal, chosen) && r == Concluded(th, t, ranked, chosen);
    ConcludedFacts(th, t, ranked, proposal, chosen);
    RecommendsOneOf(th, ranked, proposal, r.selected.value);
    RankedSelectors(w, found, rate);
  }

  /** What may be recommended below the minimum: the evaluator's choice from an ambiguous ranking, and nothing else. */
  lemma BelowMinimumRecommends(th: Thresholds, ranked: seq<Candidate>, proposal: Option<Proposal>, c: Candidate)
    requires ranked != [] && ranked[0].confidence < th.minimum
    ensures Recommends(th, ranked, proposal, c) <==>
      && Ambiguous(th, ranked) && proposal.Some? && Chosen(ranked, proposal.value, c)
      && Clamp(proposal.value.confidence) >= th.high
      && (Clamp(proposal.value.confidence) >= th.medium || Clamp(proposal.value.confidence) >= th.minimum)
  {
  }

  /**
   * Below the minimum healing is never refused outright, and the minimum does not bind the evaluator: healing is
   * recommended iff the ranking is ambiguous and the evaluator's choice from it reaches the high threshold (and the
   * medium or the minimum, where these lie above the high one).
   */
  lemma {:induction false} BelowMinimum(w: Weights, th: Thresholds, t: FailureType, found: seq<Candidate>,
                                        rate: string -> real, proposal: Option<Proposal>, r: Recommendation)
    requires Recommended(w, th, t, found, rate, proposal, r) && !NeverHealed(t)
    requires r.candidates != [] && r.candidates[0].confidence < th.minimum
    ensures r.verdict != DO_NOT_HEAL
    ensures r.verdict == RECOMMEND_HEALING <==>
      && Ambiguous(th, r.candidates) && proposal.Some? && HasSelector(r.candidates, proposal.value.selector)
      && Clamp(proposal.value.confidence) >= th.high
      && (Clamp(proposal.value.confidence) >= th.medium || Clamp(proposal.value.confidence) >= th.minimum)
  {
    var ranked := RankedFor(w, found, rate);
    var chosen :| Answers(th, ranked, proposal, chosen) && r == Concluded(th, t, ranked, chosen);
    ConcludedFacts(th, t, ranked, proposal, chosen);
    if r.selected.Some? {
      BelowMinimumRecommends(th, ranked, proposal, r.selected.value);
    }
  }

  // ---- The verdicts in terms of types, confidences and thresholds ----

  /** A failed check, the network and the application are nothing to heal, whatever candidates were found. */
  lemma NothingToHeal(w: Weights, th: Thresholds, t: FailureType, found: seq<Candidate>, rate: string -> real,
                      proposal: Option<Proposal>, r: Recommendation)
    requires Recommended(w, th, t, found, rate, proposal, r)
    requires t == ASSERTION_FAILURE || t == NETWORK_ERROR || t == APPLICATION_ERROR
    ensures r.verdict == DO_NOT_HEAL && r.action == NO_HEALING && r.selected == None && r.candidates == []
  {
  }

  /**
   * For the other six types: without a candidate healing is refused, or put to analysis if the type is unknown.  The
   * best candidate, alone or ahead of the next by more than the margin, is recommended, to be validated, or put to
   * analysis, as its confidence falls to the thresholds; the evaluator has no say.
   */
  lemma {:induction false} LeaderDecides(w: Weights, th: Thresholds, t: FailureType, found: seq<Candidate>,
                                         rate: string -> real, proposal: Option<Proposal>, r: Recommendation)
    requires Recommended(w, th, t, found, rate, proposal, r)
    requires t != ASSERTION_FAILURE && t != NETWORK_ERROR && t != APPLICATION_ERROR
    ensures |r.candidates| == |found|
    ensures r.candidates == [] ==>
      r.selected == None && r.level == LOW && r.verdict == if t == UNKNOWN then REQUIRE_FURTHER_ANALYSIS else DO_NOT_HEAL
    ensures |r.candidates| == 1
            || (|r.candidates| >= 2 && r.candidates[0].confidence - r.candidates[1].confidence > th.ambiguity) ==>
      var x := r.candidates[0].confidence;
      && (x < th.minimum ==> r.selected == None && r.level == LOW && r.verdict == REQUIRE_FURTHER_ANALYSIS)
      && (x >= th.minimum ==> r.selected == Some(r.candidates[0]))
      && (x >= th.minimum && x < th.medium ==> r.level == LOW && r.verdict == REQUIRE_FURTHER_ANALYSIS)
      && (x >= th.minimum && th.medium <= x < th.high ==> r.level == MEDIUM && r.verdict == REQUIRE_VALIDATION)
      && (x >= th.minimum && x >= th.medium && x >= th.high ==> r.level == HIGH && r.verdict == RECOMMEND_HEALING)
  {
    var ranked := RankedFor(w, found, rate);
    var chosen :| Answers(th, ranked, proposal, chosen) && r == Concluded(th, t, ranked, chosen);
    SortMultiset(Map(Map(found, EnrichedBy(rate)), ScoredBy(w)), Confidence);
    LeaderConcludes(th, t, ranked, chosen);
  }

  lemma LeaderConcludes(th: Thresholds, t: FailureType, ranked: seq<Candidate>, chosen: Option<Candidate>)
    ensures var r := Concluded(th, t, ranked, chosen);
            && r.candidates == ranked
            && (ranked == [] ==>
              && r.selected == None && r.level == LOW
              && r.verdict == if t == UNKNOWN then REQUIRE_FURTHER_ANALYSIS else DO_NOT_HEAL)
            && (|ranked| == 1 || (|ranked| >= 2 && ranked[0].confidence - ranked[1].confidence > th.ambiguity) ==>
              var x := ranked[0].confidence;
              && (x < th.minimum ==> r.selected == None && r.level == LOW && r.verdict == REQUIRE_FURTHER_ANALYSIS)
              && (x >= th.minimum ==> r.selected == Some(ranked[0]))
              && (x >= th.minimum && x < th.medium ==> r.level == LOW && r.verdict == REQUIRE_FURTHER_ANALYSIS)
              && (x >= th.minimum && th.medium <= x < th.high ==> r.level == MEDIUM && r.verdict == REQUIRE_VALIDATION)
              && (x >= th.minimum && x >= th.medium && x >= th.high ==> r.level == HIGH && r.verdict == RECOMMEND_HEALING))
  {
  }

  /**
   * Two or more candidates with no clear leader: only the evaluator can have one healed or validated.  Its choice is
   * taken when the best lies below the minimum or at least at the medium threshold, if it names one of the
   * candidates, with the confidence it gives, cut to [0, 1]; in all other cases analysis is required.
   */
  lemma {:induction false} TieIsPutToEvaluator(w: Weights, th: Thresholds, t: FailureType, found: seq<Candidate>,
                                               rate: string -> real, proposal: Option<Proposal>, r: Recommendation)
    requires Recommended(w, th, t, found, rate, proposal, r)
    requires t != ASSERTION_FAILURE && t != NETWORK_ERROR && t != APPLICATION_ERROR
    requires |r.candidates| >= 2 && r.candidates[0].confidence - r.candidates[1].confidence <= th.ambiguity
    ensures var x := r.candidates[0].confidence;
            if (x < th.minimum || x >= th.medium) && proposal.Some?
               && exists i :: 0 <= i < |r.candidates| && r.candidates[i].selector == proposal.value.selector then
              var p := proposal.value.confidence;
              var y := if p < 0.0 then 0.0 else if p > 1.0 then 1.0 else p;
              && r.selected.Some? && r.selected.value.selector == proposal.value.selector
              && r.selected.value.confidence == y
              && (r.level == if y >= th.high then HIGH else if y >= th.medium then MEDIUM else LOW)
              && r.verdict == (if y < th.medium && y < th.minimum then REQUIRE_FURTHER_ANALYSIS
                               else if y >= th.high then RECOMMEND_HEALING
                               else if y >= th.medium then REQUIRE_VALIDATION
                               else REQUIRE_FURTHER_ANALYSIS)
            else r.verdict == REQUIRE_FURTHER_ANALYSIS
  {
    var ranked := RankedFor(w, found, rate);
    var chosen :| Answers(th, ranked, proposal, chosen) && r == Concluded(th, t, ranked, chosen);
    TieConcludes(th, t, ranked, proposal, chosen);
  }

  lemma TieConcludes(th: Thresholds, t: FailureType, ranked: seq<Candidate>, proposal: Option<Proposal>,
                     chosen: Option<Candidate>)
    requires Answers(th, ranked, proposal, chosen)
    requires |ranked| >= 2 && ranked[0].confidence - ranked[1].confidence <= th.ambiguity
    ensures var r, x := Concluded(th, t, ranked, chosen), ranked[0].confidence;
            if (x < th.minimum || x >= th.medium) && proposal.Some?
               && exists i :: 0 <= i < |ranked| && ranked[i].selector == proposal.value.selector then
              var p := proposal.value.confidence;
              var y := if p < 0.0 then 0.0 else if p > 1.0 then 1.0 else p;
              && r.selected.Some? && r.selected.value.selector == proposal.value.selector
              && r.selected.value.confidence == y
              && (r.level == if y >= th.high then HIGH else if y >= th.medium then MEDIUM else LOW)
              && r.verdict == (if y < th.medium && y < th.minimum then REQUIRE_FURTHER_ANALYSIS
                               else if y >= th.high then RECOMMEND_HEALING
                               else if y >= th.medium then REQUIRE_VALIDATION
                               else REQUIRE_FURTHER_ANALYSIS)
            else r.verdict == REQUIRE_FURTHER_ANALYSIS
  {
  }
}
