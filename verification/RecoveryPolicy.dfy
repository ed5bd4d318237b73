/** Failure types and healing candidates (agents/schemas/enums.py, agents/healer/healing_schemas.py). */
module Candidates {

  datatype FailureType =
    | SELECTOR_CHANGED | ELEMENT_NOT_FOUND | ELEMENT_NOT_INTERACTABLE | TIMEOUT | ASSERTION_FAILURE
    | NAVIGATION_FAILURE | NETWORK_ERROR | APPLICATION_ERROR | UNKNOWN

  /** A candidate selector: its final confidence and the eight component scores behind it. */
  datatype Candidate = Candidate(
    selector: string, confidence: real,
    text: real, role: real, kind: real, page: real,
    historical: real, name: real, stable: real, history: real)

  function Confidence(c: Candidate): real { c.confidence }

  datatype Analysis = Analysis(failureType: FailureType, failedTarget: string)
}

/** The workflow steps and their transition table (agents/orchestration/workflow_schemas.py). */
module WorkflowSteps {

  datatype WorkflowStep =
    | PLANNING | EXECUTION_PENDING | EXECUTION_SUCCESS | FAILURE_DETECTED | ANALYZING_FAILURE
    | GENERATING_CANDIDATES | RANKING_CANDIDATES | DECIDING_HEALING | RETRYING
    | HEALING_PENDING_VALIDATION | HEALING_SUCCEEDED | HEALING_FAILED | COMPLETED | ABORTED

  function ValidTransitions(step: WorkflowStep): set<WorkflowStep> {
    match step
    case PLANNING => {EXECUTION_PENDING, ABORTED}
    case EXECUTION_PENDING => {EXECUTION_SUCCESS, FAILURE_DETECTED}
    case EXECUTION_SUCCESS => {COMPLETED}
    case FAILURE_DETECTED => {ANALYZING_FAILURE}
    case ANALYZING_FAILURE => {GENERATING_CANDIDATES, RETRYING, COMPLETED, ABORTED}
    case GENERATING_CANDIDATES => {RANKING_CANDIDATES, HEALING_FAILED}
    case RANKING_CANDIDATES => {DECIDING_HEALING}
    case DECIDING_HEALING => {HEALING_PENDING_VALIDATION, COMPLETED, HEALING_FAILED, ABORTED}
    case RETRYING => {EXECUTION_PENDING}
    case HEALING_PENDING_VALIDATION => {HEALING_SUCCEEDED, HEALING_FAILED, HEALING_PENDING_VALIDATION, ABORTED}
    case HEALING_SUCCEEDED => {COMPLETED}
    case HEALING_FAILED => {COMPLETED}
    case COMPLETED => {}
    case ABORTED => {}
  }
}

/** The deterministic recovery policy (agents/orchestration/recovery_policy.py). */
module RecoveryPolicy {
  import opened Sequences
  import opened Candidates
  import opened WorkflowSteps
  import opened HealingEvidence
  import opened Rounding

  datatype RecoveryAction = RETRY | TRY_HEALING | REQUIRE_FURTHER_ANALYSIS | DO_NOT_HEAL | ABORT

  datatype TypePolicy = TypePolicy(healable: bool, retryable: bool, maxRetries: nat)

  datatype PolicyConfig = PolicyConfig(
    maxHealingAttempts: nat, minHealingConfidence: real, minCandidateScore: real,
    allowMediumConfidence: bool, allowRetry: bool, maxRetries: nat,
    ambiguityMargin: real, historyBoostWeight: real, failurePolicies: map<FailureType, TypePolicy>)

  datatype Decision = Decision(
    failureType: FailureType, action: RecoveryAction, confidence: real, selected: Option<Candidate>,
    attemptNumber: nat, retryCount: nat, requiresValidation: bool, nextState: WorkflowStep)

  function DefaultPolicy(t: FailureType): TypePolicy {
    match t
    case SELECTOR_CHANGED | ELEMENT_NOT_FOUND => TypePolicy(true, false, 0)
    case ELEMENT_NOT_INTERACTABLE | TIMEOUT | NAVIGATION_FAILURE => TypePolicy(false, true, 2)
    case ASSERTION_FAILURE | NETWORK_ERROR | APPLICATION_ERROR | UNKNOWN => TypePolicy(false, false, 0)
  }

  function PolicyFor(cfg: PolicyConfig, t: FailureType): TypePolicy {
    if t in cfg.failurePolicies then cfg.failurePolicies[t] else DefaultPolicy(t)
  }

  function RetryLimit(cfg: PolicyConfig, t: FailureType): nat {
    if PolicyFor(cfg, t).maxRetries < cfg.maxRetries then PolicyFor(cfg, t).maxRetries else cfg.maxRetries
  }

  predicate RetryDue(cfg: PolicyConfig, t: FailureType, retries: nat) {
    PolicyFor(cfg, t).retryable && cfg.allowRetry && retries < RetryLimit(cfg, t)
  }

  function IsEligible(attempted: set<string>, minScore: real): Candidate -> bool {
    (c: Candidate) => c.selector !in attempted && c.confidence >= minScore
  }

  function Eligible(cfg: PolicyConfig, ranked: seq<Candidate>, attempted: set<string>): seq<Candidate> {
    Filter(ranked, IsEligible(attempted, cfg.minCandidateScore))
  }

  /** The filter loop with its two counters: every candidate is kept, or counted for one reason. */
  method FilterEligibleCandidates(cfg: PolicyConfig, candidates: seq<Candidate>, attempted: set<string>)
    returns (eligible: seq<Candidate>, skippedAttempted: nat, skippedLow: nat)
    ensures eligible == Eligible(cfg, candidates, attempted)
    ensures |eligible| + skippedAttempted + skippedLow == |candidates|
    ensures skippedAttempted == |Filter(candidates, AlreadyTried(attempted))|
  {
    eligible, skippedAttempted, skippedLow := [], 0, 0;
    for i := 0 to |candidates|
      invariant eligible == Eligible(cfg, candidates[..i], attempted)
      invariant |eligible| + skippedAttempted + skippedLow == i
      invariant skippedAttempted == |Filter(candidates[..i], AlreadyTried(attempted))|
    {
      var c := candidates[i];
      assert candidates[..i + 1] == candidates[..i] + [c];
      FilterAppend(candidates[..i], [c], IsEligible(attempted, cfg.minCandidateScore));
      FilterAppend(candidates[..i], [c], AlreadyTried(attempted));
      if c.selector in attempted {
        skippedAttempted := skippedAttempted + 1;
        continue;
      }
      if c.confidence < cfg.minCandidateScore {
        skippedLow := skippedLow + 1;
        continue;
      }
      eligible := eligible + [c];
    }
    assert candidates[..|candidates|] == candidates;
  }

  function AlreadyTried(attempted: set<string>): Candidate -> bool {
    (c: Candidate) => c.selector in attempted
  }

  /** What the evidence retriever knows about replacing the failed target, by replacement; empty without one. */
  type History = map<string, ReplacementStats>

  function Adjusted(cfg: PolicyConfig, best: Candidate, analysis: Option<Analysis>, history: History): real {
    if analysis.None? || analysis.value.failedTarget == "" || best.selector !in history
       || history[best.selector].attempts == 0
    then best.confidence
    else
      var stats := history[best.selector];
      var raised := best.confidence + SuccessRate(stats) * cfg.historyBoostWeight;
      var capped := if raised < 1.0 then raised else 1.0;
      if stats.attempts >= 3 && SuccessRate(stats) < 0.3
      then (if capped - 0.2 > 0.0 then capped - 0.2 else 0.0)
      else capped
  }

  function TypeOf(analysis: Option<Analysis>): FailureType {
    if analysis.Some? then analysis.value.failureType else UNKNOWN
  }

  function EvaluateHealing(cfg: PolicyConfig, analysis: Option<Analysis>, eligible: seq<Candidate>,
                           attempts: nat, retries: nat, history: History): Decision
    requires eligible != []
  {
    var best := eligible[0];
    var adjusted := Adjusted(cfg, best, analysis, history);
    var t := TypeOf(analysis);
    if |eligible| >= 2 && best.confidence - eligible[1].confidence <= cfg.ambiguityMargin then
      Decision(t, REQUIRE_FURTHER_ANALYSIS, adjusted, None, attempts, retries, false, COMPLETED)
    else if adjusted >= cfg.minHealingConfidence
            || (cfg.allowMediumConfidence && adjusted >= cfg.minCandidateScore) then
      Decision(t, TRY_HEALING, adjusted, Some(best), attempts + 1, retries, true, HEALING_PENDING_VALIDATION)
    else
      Decision(t, DO_NOT_HEAL, adjusted, None, attempts, retries, false, COMPLETED)
  }

  function Evaluate(cfg: PolicyConfig, analysis: Analysis, ranked: seq<Candidate>, attempts: nat, retries: nat,
                    attempted: set<string>, history: History): Decision
  {
    var t := analysis.failureType;
    var p := PolicyFor(cfg, t);
    if attempts >= cfg.maxHealingAttempts then
      Decision(t, ABORT, 1.0, None, attempts, retries, false, ABORTED)
    else if !p.healable && !p.retryable then
      Decision(t, DO_NOT_HEAL, 1.0, None, attempts, retries, false, COMPLETED)
    else if RetryDue(cfg, t, retries) then
      Decision(t, RETRY, 0.9, None, attempts, retries, false, RETRYING)
    else if p.retryable && cfg.allowRetry && !p.healable then
      Decision(t, REQUIRE_FURTHER_ANALYSIS, 0.7, None, attempts, retries, false, COMPLETED)
    else if !p.healable then
      Decision(t, DO_NOT_HEAL, 1.0, None, attempts, retries, false, COMPLETED)
    else
      var eligible := Eligible(cfg, ranked, attempted);
      if eligible == [] then Decision(t, DO_NOT_HEAL, 1.0, None, attempts, retries, false, COMPLETED)
      else EvaluateHealing(cfg, Some(analysis), eligible, attempts, retries, history)
  }

  function EvaluateContinuation(cfg: PolicyConfig, analysis: Option<Analysis>, ranked: seq<Candidate>, attempts: nat,
                                attempted: set<string>, history: History): Decision
  {
    var eligible := Eligible(cfg, ranked, attempted);
    if attempts >= cfg.maxHealingAttempts || eligible == [] then
      Decision(TypeOf(analysis), ABORT, 1.0, None, attempts, 0, false, ABORTED)
    else EvaluateHealing(cfg, analysis, eligible, attempts, 0, history)
  }

  // ---- What a decision to heal guarantees ----

  /** Position p holds the first candidate that may still be tried. */
  ghost predicate FirstEligible(cfg: PolicyConfig, ranked: seq<Candidate>, attempted: set<string>, p: nat) {
    && p < |ranked| && IsEligible(attempted, cfg.minCandidateScore)(ranked[p])
    && forall q :: 0 <= q < p ==> !IsEligible(attempted, cfg.minCandidateScore)(ranked[q])
  }

  lemma {:induction false} EligibleHead(cfg: PolicyConfig, ranked: seq<Candidate>, attempted: set<string>)
    returns (p: nat)
    requires Eligible(cfg, ranked, attempted) != []
    ensures FirstEligible(cfg, ranked, attempted, p) && Eligible(cfg, ranked, attempted)[0] == ranked[p]
  {
    if IsEligible(attempted, cfg.minCandidateScore)(ranked[0]) {
      p := 0;
    } else {
      var q := EligibleHead(cfg, ranked[1..], attempted);
      p := q + 1;
      forall k | 0 <= k < p ensures !IsEligible(attempted, cfg.minCandidateScore)(ranked[k]) {
        if k > 0 {
          assert ranked[1..][k - 1] == ranked[k];
        }
      }
    }
  }

  /**
   * A safe decision: it carries a candidate iff it is TRY_HEALING, and then the limit is not reached, the
   * candidate is the first one that may still be tried, clearly ahead of the next, and confident enough.
   */
  ghost predicate SafeDecision(cfg: PolicyConfig, d: Decision, analysis: Option<Analysis>, ranked: seq<Candidate>,
                               attempts: nat, attempted: set<string>, history: History)
  {
    var eligible := Eligible(cfg, ranked, attempted);
    && (d.action == TRY_HEALING <==> d.selected.Some?)
    && (d.action == TRY_HEALING <==> d.requiresValidation)
    && (d.action == TRY_HEALING <==> d.nextState == HEALING_PENDING_VALIDATION)
    && (d.action == TRY_HEALING ==>
          && attempts < cfg.maxHealingAttempts && d.attemptNumber == attempts + 1
          && (exists p: nat :: FirstEligible(cfg, ranked, attempted, p) && d.selected == Some(ranked[p]))
          && (|eligible| >= 2 ==> d.selected.value.confidence - eligible[1].confidence > cfg.ambiguityMargin)
          && d.confidence == Adjusted(cfg, d.selected.value, analysis, history)
          && (d.confidence >= cfg.minHealingConfidence
              || (cfg.allowMediumConfidence && d.confidence >= cfg.minCandidateScore)))
  }

  lemma EvaluateIsSafe(cfg: PolicyConfig, analysis: Analysis, ranked: seq<Candidate>, attempts: nat, retries: nat,
                       attempted: set<string>, history: History)
    ensures SafeDecision(cfg, Evaluate(cfg, analysis, ranked, attempts, retries, attempted, history),
                         Some(analysis), ranked, attempts, attempted, history)
    ensures Evaluate(cfg, analysis, ranked, attempts, retries, attempted, history).action == TRY_HEALING ==>
      PolicyFor(cfg, analysis.failureType).healable && !RetryDue(cfg, analysis.failureType, retries)
  {
    if Eligible(cfg, ranked, attempted) != [] {
      var p := EligibleHead(cfg, ranked, attempted);
    }
  }

  lemma ContinuationIsSafe(cfg: PolicyConfig, analysis: Option<Analysis>, ranked: seq<Candidate>, attempts: nat,
                           attempted: set<string>, history: History)
    ensures SafeDecision(cfg, EvaluateContinuation(cfg, analysis, ranked, attempts, attempted, history),
                         analysis, ranked, attempts, attempted, history)
  {
    if Eligible(cfg, ranked, attempted) != [] {
      var p := EligibleHead(cfg, ranked, attempted);
    }
  }

  // ---- The whole decision, in terms of the inputs ----

  /** The type is healed: as configured, or else after a changed selector or a missing element. */
  predicate MayHeal(cfg: PolicyConfig, t: FailureType) {
    if t in cfg.failurePolicies then cfg.failurePolicies[t].healable else t == SELECTOR_CHANGED || t == ELEMENT_NOT_FOUND
  }

  /** The type passes by itself: as configured, or else when the element was not ready or the page not loaded in time. */
  predicate Transient(cfg: PolicyConfig, t: FailureType) {
    if t in cfg.failurePolicies then cfg.failurePolicies[t].retryable
    else t == ELEMENT_NOT_INTERACTABLE || t == TIMEOUT || t == NAVIGATION_FAILURE
  }

  /** Another retry is within the limit of the type, which is 2 unless configured, and within the one for all types. */
  predicate MayRetry(cfg: PolicyConfig, t: FailureType, retries: nat) {
    && Transient(cfg, t) && cfg.allowRetry && retries < cfg.maxRetries
    && retries < (if t in cfg.failurePolicies then cfg.failurePolicies[t].maxRetries else 2)
  }

  /** What is decided before any candidate is looked at, and where each decision leads. */
  lemma {:induction false} ActionOf(cfg: PolicyConfig, analysis: Analysis, ranked: seq<Candidate>, attempts: nat,
                                    retries: nat, attempted: set<string>, history: History)
    ensures var t, d := analysis.failureType, Evaluate(cfg, analysis, ranked, attempts, retries, attempted, history);
            && (d.action == ABORT <==> attempts >= cfg.maxHealingAttempts)
            && (d.action == RETRY <==> attempts < cfg.maxHealingAttempts && MayRetry(cfg, t, retries))
            && (attempts < cfg.maxHealingAttempts && !MayRetry(cfg, t, retries) && !MayHeal(cfg, t) ==>
                  && d.action == (if Transient(cfg, t) && cfg.allowRetry then REQUIRE_FURTHER_ANALYSIS else DO_NOT_HEAL)
                  && d.confidence == (if Transient(cfg, t) && cfg.allowRetry then 0.7 else 1.0))
            && d.failureType == t && d.retryCount == retries
            && (d.action == ABORT ==> d.confidence == 1.0) && (d.action == RETRY ==> d.confidence == 0.9)
            && (d.action != TRY_HEALING ==> d.selected == None && d.attemptNumber == attempts && !d.requiresValidation)
            && (d.nextState == ABORTED <==> d.action == ABORT) && (d.nextState == RETRYING <==> d.action == RETRY)
            && (d.nextState == COMPLETED <==> d.action == REQUIRE_FURTHER_ANALYSIS || d.action == DO_NOT_HEAL)
  {
    if Eligible(cfg, ranked, attempted) != [] {
      var p := EligibleHead(cfg, ranked, attempted);
    }
  }

  /** A candidate that was not tried yet and reaches the minimum score. */
  predicate Triable(cfg: PolicyConfig, attempted: set<string>, c: Candidate) {
    c.selector !in attempted && c.confidence >= cfg.minCandidateScore
  }

  /** Position p holds the first triable candidate, and the next one, if there is any, is behind by more than the margin. */
  ghost predicate ClearFirst(cfg: PolicyConfig, ranked: seq<Candidate>, attempted: set<string>, p: nat) {
    && p < |ranked| && Triable(cfg, attempted, ranked[p])
    && (forall q :: 0 <= q < p ==> !Triable(cfg, attempted, ranked[q]))
    && (forall q :: p < q < |ranked| && Triable(cfg, attempted, ranked[q])
                    && (forall k :: p < k < q ==> !Triable(cfg, attempted, ranked[k])) ==>
          ranked[p].confidence - ranked[q].confidence > cfg.ambiguityMargin)
  }

  predicate Sure(cfg: PolicyConfig, confidence: real) {
    confidence >= cfg.minHealingConfidence || (cfg.allowMediumConfidence && confidence >= cfg.minCandidateScore)
  }

  lemma {:induction false} NoneEligible(cfg: PolicyConfig, ranked: seq<Candidate>, attempted: set<string>)
    ensures Eligible(cfg, ranked, attempted) == [] <==> forall c :: c in ranked ==> !Triable(cfg, attempted, c)
  {
    forall c ensures c in Eligible(cfg, ranked, attempted) <==> c in ranked && Triable(cfg, attempted, c) {
      FilterMember(ranked, IsEligible(attempted, cfg.minCandidateScore), c);
    }
    if Eligible(cfg, ranked, attempted) != [] {
      assert Eligible(cfg, ranked, attempted)[0] in ranked;
    }
  }

  lemma {:induction false} EligibleAfter(cfg: PolicyConfig, ranked: seq<Candidate>, attempted: set<string>, p: nat)
    requires FirstEligible(cfg, ranked, attempted, p)
    ensures Eligible(cfg, ranked, attempted) == [ranked[p]] + Eligible(cfg, ranked[p + 1..], attempted)
  {
    if p > 0 {
      assert !IsEligible(attempted, cfg.minCandidateScore)(ranked[0]);
      forall q | 0 <= q < p - 1 ensures !IsEligible(attempted, cfg.minCandidateScore)(ranked[1..][q]) {
        assert ranked[1..][q] == ranked[q + 1];
      }
      EligibleAfter(cfg, ranked[1..], attempted, p - 1);
      assert ranked[1..][p..] == ranked[p + 1..];
    }
  }

  /** The first two of the eligible list, by position. */
  lemma {:induction false} LeadIsClear(cfg: PolicyConfig, ranked: seq<Candidate>, attempted: set<string>, p: nat)
    requires FirstEligible(cfg, ranked, attempted, p)
    ensures var e := Eligible(cfg, ranked, attempted);
            && e != [] && e[0] == ranked[p]
            && (ClearFirst(cfg, ranked, attempted, p)
                <==> |e| < 2 || e[0].confidence - e[1].confidence > cfg.ambiguityMargin)
  {
    var rest := ranked[p + 1..];
    EligibleAfter(cfg, ranked, attempted, p);
    assert forall q :: p < q < |ranked| ==> rest[q - p - 1] == ranked[q];
    NoneEligible(cfg, rest, attempted);
    if Eligible(cfg, rest, attempted) != [] {
      var k := EligibleHead(cfg, rest, attempted);
      NextTriable(cfg, ranked, attempted, p, p + 1 + k);
    }
  }

  /** The next triable candidate is the only one that the lead is measured against. */
  lemma NextTriable(cfg: PolicyConfig, ranked: seq<Candidate>, attempted: set<string>, p: nat, n: nat)
    requires FirstEligible(cfg, ranked, attempted, p)
    requires p < n < |ranked| && FirstEligible(cfg, ranked[p + 1..], attempted, n - p - 1)
    ensures ClearFirst(cfg, ranked, attempted, p) <==> ranked[p].confidence - ranked[n].confidence > cfg.ambiguityMargin
  {
    var rest := ranked[p + 1..];
    assert rest[n - p - 1] == ranked[n] && Triable(cfg, attempted, ranked[n]);
    forall k | p < k < n ensures !Triable(cfg, attempted, ranked[k]) {
      assert rest[k - p - 1] == ranked[k];
      assert !IsEligible(attempted, cfg.minCandidateScore)(rest[k - p - 1]);
    }
  }

  /**
   * With attempts left, on a type that is healed and not retried: healing is tried iff some candidate is the first
   * triable one, clearly ahead of the next, and sure enough by its confidence as history adjusts it; then that one is.
   */
  lemma {:induction false} HealsIff(cfg: PolicyConfig, analysis: Analysis, ranked: seq<Candidate>, attempts: nat,
                                    retries: nat, attempted: set<string>, history: History)
    requires attempts < cfg.maxHealingAttempts
    requires MayHeal(cfg, analysis.failureType) && !MayRetry(cfg, analysis.failureType, retries)
    ensures var d := Evaluate(cfg, analysis, ranked, attempts, retries, attempted, history);
            && (d.action == TRY_HEALING <==> exists p: nat ::
                  ClearFirst(cfg, ranked, attempted, p) && Sure(cfg, Adjusted(cfg, ranked[p], Some(analysis), history)))
            && (d.action == REQUIRE_FURTHER_ANALYSIS <==>
                  && (exists c :: c in ranked && Triable(cfg, attempted, c))
                  && !exists p: nat :: ClearFirst(cfg, ranked, attempted, p))
            && (d.action != TRY_HEALING && d.action != REQUIRE_FURTHER_ANALYSIS ==> d.action == DO_NOT_HEAL)
            && (forall p: nat :: ClearFirst(cfg, ranked, attempted, p) ==>
                  && d.confidence == Adjusted(cfg, ranked[p], Some(analysis), history)
                  && (d.action == TRY_HEALING ==> d.selected == Some(ranked[p]) && d.attemptNumber == attempts + 1))
            && ((forall c :: c in ranked ==> !Triable(cfg, attempted, c)) ==> d.confidence == 1.0)
  {
    NoneEligible(cfg, ranked, attempted);
    if Eligible(cfg, ranked, attempted) != [] {
      var p := EligibleHead(cfg, ranked, attempted);
      LeadIsClear(cfg, ranked, attempted, p);
      assert Triable(cfg, attempted, ranked[p]) && ranked[p] in ranked;
      forall q: nat | ClearFirst(cfg, ranked, attempted, q) ensures q == p {
        assert Triable(cfg, attempted, ranked[p]) && Triable(cfg, attempted, ranked[q]);
      }
    }
  }

  /** After a failed attempt there is no retry: another candidate is tried under the same conditions, or it is over. */
  lemma {:induction false} ContinuesIff(cfg: PolicyConfig, analysis: Option<Analysis>, ranked: seq<Candidate>,
                                        attempts: nat, attempted: set<string>, history: History)
    ensures var d := EvaluateContinuation(cfg, analysis, ranked, attempts, attempted, history);
            && (d.action == TRY_HEALING <==> attempts < cfg.maxHealingAttempts && exists p: nat ::
                  ClearFirst(cfg, ranked, attempted, p) && Sure(cfg, Adjusted(cfg, ranked[p], analysis, history)))
            && (d.action == ABORT <==>
                  attempts >= cfg.maxHealingAttempts || forall c :: c in ranked ==> !Triable(cfg, attempted, c))
            && d.failureType == (if analysis.Some? then analysis.value.failureType else UNKNOWN) && d.retryCount == 0
            && (d.action == ABORT ==> d.confidence == 1.0 && d.nextState == ABORTED && d.attemptNumber == attempts)
            && (d.action != ABORT ==> forall p: nat :: ClearFirst(cfg, ranked, attempted, p) ==>
                  && d.confidence == Adjusted(cfg, ranked[p], analysis, history)
                  && (d.action == TRY_HEALING ==> d.selected == Some(ranked[p]) && d.attemptNumber == attempts + 1))
  {
    NoneEligible(cfg, ranked, attempted);
    if Eligible(cfg, ranked, attempted) != [] {
      var p := EligibleHead(cfg, ranked, attempted);
      LeadIsClear(cfg, ranked, attempted, p);
      forall q: nat | ClearFirst(cfg, ranked, attempted, q) ensures q == p {
        assert Triable(cfg, attempted, ranked[p]) && Triable(cfg, attempted, ranked[q]);
      }
    }
  }

  lemma ProductBelow(rate: real, n: real)
    requires n > 0.0
    ensures rate < 0.3 <==> rate * n < 0.3 * n
  {
    if rate < 0.3 {
      assert (0.3 - rate) * n > 0.0;
    } else {
      assert (rate - 0.3) * n >= 0.0;
    }
  }

  lemma QuotientBelow(won: real, n: real)
    requires n > 0.0
    ensures won / n < 0.3 <==> won < 0.3 * n
  {
    ProductBelow(won / n, n);
  }

  lemma RateBelow(successes: nat, attempts: nat)
    requires attempts > 0
    ensures successes as real / attempts as real < 0.3 <==> 10 * successes < 3 * attempts
  {
    QuotientBelow(successes as real, attempts as real);
  }

  /**
   * What history does to a confidence: it adds the weighted success rate, up to 1, and takes 0.2 off again, down to 0,
   * after at least three attempts of which less than three in ten succeeded.  Without attempts it changes nothing.
   */
  lemma {:induction false} AdjustedByHistory(cfg: PolicyConfig, best: Candidate, target: string, t: FailureType,
                                             history: History)
    ensures Adjusted(cfg, best, None, history) == best.confidence
    ensures var adjusted := Adjusted(cfg, best, Some(Analysis(t, target)), history);
            if target != "" && best.selector in history && history[best.selector].attempts > 0 then
              var n, won := history[best.selector].attempts, history[best.selector].successes;
              var capped := Min(1.0, best.confidence + won as real / n as real * cfg.historyBoostWeight);
              adjusted == if n >= 3 && 10 * won < 3 * n then Max(0.0, capped - 0.2) else capped
            else adjusted == best.confidence
  {
    if best.selector in history && history[best.selector].attempts > 0 {
      RateBelow(history[best.selector].successes, history[best.selector].attempts);
    }
  }
}
