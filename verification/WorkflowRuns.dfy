/** Whole runs of the workflow: any sequence of submissions, each made on the state the last one returned. */
module WorkflowRuns {
  import opened Sequences
  import opened WhiteSpace
  import opened MemoryRecords
  import opened Candidates
  import opened WorkflowSteps
  import opened RecoveryPolicy
  import opened Orchestrator

  datatype World = World(state: AgentState, memory: seq<HealingRecord>)

  datatype Submission =
    | Executed(result: ExecutionResult, answers: Answers)
    | Validated(feedback: Feedback, history: History)

  function Submit(cfg: Config, w: World, sub: Submission): Result<World> {
    match sub
    case Executed(result, a) =>
      (match ExecutionOutcome(cfg, w.state, result, a)
       case Ok(s) => Ok(World(s, w.memory))
       case Err(e) => Err(e))
    case Validated(f, history) =>
      (match HealingOutcome(cfg, w.state, f, history)
       case Ok(s) => Ok(World(s, w.memory + [RecordOf(f)]))
       case Err(e) => Err(e))
  }

  /** A freshly planned workflow, over whatever the memory already holds. */
  function Fresh(id: string, memory: seq<HealingRecord>): World {
    World(Planned(id, true), memory)
  }

  function Run(cfg: Config, start: World, subs: seq<Submission>): Result<World> {
    if subs == [] then Ok(start)
    else
      match Run(cfg, start, subs[..|subs| - 1])
      case Ok(w) => Submit(cfg, w, subs[|subs| - 1])
      case Err(e) => Err(e)
  }

  // ---- Reading a run ----

  function Feedbacks(subs: seq<Submission>): seq<HealingRecord> {
    if subs == [] then []
    else
      Feedbacks(subs[..|subs| - 1])
      + (if subs[|subs| - 1].Validated? then [RecordOf(subs[|subs| - 1].feedback)] else [])
  }

  function Executions(subs: seq<Submission>): nat {
    if subs == [] then 0 else Executions(subs[..|subs| - 1]) + (if subs[|subs| - 1].Executed? then 1 else 0)
  }

  lemma {:induction false} SubmissionsSplit(subs: seq<Submission>)
    ensures |subs| == Executions(subs) + |Feedbacks(subs)|
  {
    if subs != [] {
      SubmissionsSplit(subs[..|subs| - 1]);
    }
  }

  // ---- Reading the audit trail ----

  /** What the audit trail says: the recommendations sent, and how often each input or retry was recorded. */
  datatype Audit = Audit(sent: seq<Sent>, executions: nat, feedbacks: nat, retries: nat)

  function Count(a: Audit, e: Event): Audit {
    Audit(
      if e.sent.Some? then a.sent + [e.sent.value] else a.sent,
      a.executions + (if e.kind == EXECUTION_RESULT_RECEIVED then 1 else 0),
      a.feedbacks + (if e.kind == HEALING_RESULT_RECEIVED then 1 else 0),
      a.retries + (if e.kind == RETRY_INITIATED then 1 else 0))
  }

  function AuditOf(events: seq<Event>): Audit {
    if events == [] then Audit([], 0, 0, 0)
    else Count(AuditOf(events[..|events| - 1]), events[|events| - 1])
  }

  lemma Append(events: seq<Event>, e: Event)
    ensures AuditOf(events + [e]) == Count(AuditOf(events), e)
  {
    assert (events + [e])[..|events|] == events;
  }

  lemma LogAudit(s: AgentState, kind: EventKind, step: WorkflowStep)
    ensures AuditOf(Log(s, kind, step).events) == Count(AuditOf(s.events), Event(kind, step, None))
  {
    Append(s.events, Event(kind, step, None));
  }

  lemma AttemptAudit(s: AgentState, c: Candidate)
    ensures var a := AuditOf(s.events);
            AuditOf(Attempt(s, c).events) == a.(sent := a.sent + [Sent(c.selector, c.confidence, s.healingAttempts + 1)])
  {
    Append(s.events, Event(HEALING_RECOMMENDATION_SENT, HEALING_PENDING_VALIDATION,
                           Some(Sent(c.selector, c.confidence, s.healingAttempts + 1))));
  }

  lemma FinishedAudit(s: AgentState)
    ensures AuditOf(Finished(s).events) == AuditOf(s.events)
  {
    LogAudit(s.(step := COMPLETED, status := Completed), WORKFLOW_COMPLETED, COMPLETED);
  }

  lemma DecidedAudit(cfg: Config, s: AgentState, a: Answers)
    ensures AuditOf(Decided(cfg, s, a).events) == AuditOf(s.events)
  {
    var s0 := s.(ranked := a.recommendation.candidates, recommendation := Some(a.recommendation),
                 decision := Decided(cfg, s, a).decision);
    var s1 := Log(s0, CANDIDATES_GENERATED, GENERATING_CANDIDATES);
    var s2 := Log(s1, CANDIDATES_RANKED, RANKING_CANDIDATES);
    var s3 := Log(s2, RECOVERY_DECISION_CREATED, DECIDING_HEALING);
    LogAudit(s0, CANDIDATES_GENERATED, GENERATING_CANDIDATES);
    LogAudit(s1, CANDIDATES_RANKED, RANKING_CANDIDATES);
    LogAudit(s2, RECOVERY_DECISION_CREATED, DECIDING_HEALING);
    LogAudit(s3, HEALING_DECISION_CREATED, DECIDING_HEALING);
  }

  // ---- The trail of recommendations ----

  /** `ix` are the positions in the ranked list of the recommendations sent so far. */
  ghost predicate Trail(cfg: PolicyConfig, ranked: seq<Candidate>, sent: seq<Sent>, attempted: set<string>,
                        ix: seq<nat>) {
    && |ix| == |sent|
    && (forall k :: 0 <= k < |ix| ==>
      && ix[k] < |ranked| && sent[k] == Sent(ranked[ix[k]].selector, ranked[ix[k]].confidence, k + 1)
      && sent[k].selector in attempted && sent[k].confidence >= cfg.minCandidateScore)
    && (forall j, k :: 0 <= j < k < |ix| ==> ix[j] < ix[k] && sent[j].selector != sent[k].selector)
    && (forall q :: 0 <= q < |ranked| && ix != [] && q <= ix[|ix| - 1] ==>
      !IsEligible(attempted, cfg.minCandidateScore)(ranked[q]))
  }

  ghost predicate HasTrail(cfg: PolicyConfig, ranked: seq<Candidate>, sent: seq<Sent>, attempted: set<string>) {
    exists ix :: Trail(cfg, ranked, sent, attempted, ix)
  }

  lemma NoTrail(cfg: PolicyConfig, ranked: seq<Candidate>, attempted: set<string>)
    ensures HasTrail(cfg, ranked, [], attempted)
  {
    assert Trail(cfg, ranked, [], attempted, []);
  }

  /** Recommending the first candidate that may still be tried extends the trail, however many more were ruled out. */
  lemma TrailExtends(cfg: PolicyConfig, ranked: seq<Candidate>, sent: seq<Sent>, before: set<string>,
                     attempted: set<string>, p: nat)
    requires HasTrail(cfg, ranked, sent, before) && before <= attempted
    requires FirstEligible(cfg, ranked, attempted, p)
    ensures HasTrail(cfg, ranked, sent + [Sent(ranked[p].selector, ranked[p].confidence, |sent| + 1)],
                     attempted + {ranked[p].selector})
  {
    var ix :| Trail(cfg, ranked, sent, before, ix);
    var sent' := sent + [Sent(ranked[p].selector, ranked[p].confidence, |sent| + 1)];
    var ix' := ix + [p];
    var now := attempted + {ranked[p].selector};
    assert ix != [] ==> ix[|ix| - 1] < p;
    forall k | 0 <= k < |ix| ensures ix[k] < p && sent[k].selector != ranked[p].selector {
      assert ix[k] <= ix[|ix| - 1];
      assert sent[k].selector in before;
    }
    forall q | 0 <= q <= p ensures !IsEligible(now, cfg.minCandidateScore)(ranked[q]) {
      assert q < p ==> !IsEligible(attempted, cfg.minCandidateScore)(ranked[q]);
    }
    assert Trail(cfg, ranked, sent', now, ix');
  }

  lemma TrailGrows(cfg: PolicyConfig, ranked: seq<Candidate>, sent: seq<Sent>, before: set<string>,
                   attempted: set<string>)
    requires HasTrail(cfg, ranked, sent, before) && before <= attempted
    ensures HasTrail(cfg, ranked, sent, attempted)
  {
    var ix :| Trail(cfg, ranked, sent, before, ix);
    forall q | 0 <= q < |ranked| && ix != [] && q <= ix[|ix| - 1]
      ensures !IsEligible(attempted, cfg.minCandidateScore)(ranked[q])
    {
      assert !IsEligible(before, cfg.minCandidateScore)(ranked[q]);
    }
    assert Trail(cfg, ranked, sent, attempted, ix);
  }

  // ---- The invariant ----

  predicate Pending(s: AgentState) { s.step == HEALING_PENDING_VALIDATION }

  ghost predicate StepOk(s: AgentState) {
    && (s.step == EXECUTION_PENDING || Pending(s) || s.step == COMPLETED || s.step == ABORTED)
    && (s.status == Completed <==> s.step == COMPLETED)
    && (s.status == Aborted <==> s.step == ABORTED)
    && (s.step == EXECUTION_PENDING ==> s.healingAttempts == 0 && s.attempted == {})
  }

  /** Counters, budgets and audit trail against the numbers of submissions accepted. */
  ghost predicate Accounts(cfg: Config, s: AgentState, executions: nat, feedbacks: nat) {
    var audit := AuditOf(s.events);
    && s.healingAttempts == feedbacks + (if Pending(s) then 1 else 0)
    && executions == s.retries + (if s.step == EXECUTION_PENDING then 0 else 1)
    && s.retries <= cfg.policy.maxRetries
    && s.healingAttempts <= cfg.policy.maxHealingAttempts
    && audit.executions == executions && audit.feedbacks == feedbacks && audit.retries == s.retries
    && |audit.sent| == s.healingAttempts
  }

  /** The recommendation waiting for validation is the last one sent. */
  ghost predicate Waiting(s: AgentState) {
    var sent := AuditOf(s.events).sent;
    && sent != [] && s.analysis.Some? && s.recommendation.Some? && s.recommendation.value.selected.Some?
    && s.recommendation.value.selected.value in s.ranked
    && s.recommendation.value.selected.value.selector == sent[|sent| - 1].selector
  }

  ghost predicate Invariant(cfg: Config, s: AgentState, executions: nat, feedbacks: nat) {
    && StepOk(s) && Accounts(cfg, s, executions, feedbacks)
    && HasTrail(cfg.policy, s.ranked, AuditOf(s.events).sent, s.attempted)
    && (Pending(s) ==> Waiting(s))
  }

  /** Following a decision that carries the first candidate that may still be tried. */
  lemma AttemptKeepsInvariant(cfg: Config, s: AgentState, before: set<string>, p: nat, executions: nat, feedbacks: nat)
    requires var sent := AuditOf(s.events).sent;
             HasTrail(cfg.policy, s.ranked, sent, before) && |sent| == s.healingAttempts == feedbacks
    requires before <= s.attempted && s.healingAttempts < cfg.policy.maxHealingAttempts
    requires s.analysis.Some? && s.recommendation.Some? && s.status == Active
    requires FirstEligible(cfg.policy, s.ranked, s.attempted, p)
    requires executions == s.retries + 1 && s.retries <= cfg.policy.maxRetries
    requires AuditOf(s.events) == Audit(AuditOf(s.events).sent, executions, feedbacks, s.retries)
    ensures Invariant(cfg, Attempt(s, s.ranked[p]), executions, feedbacks)
  {
    AttemptAudit(s, s.ranked[p]);
    TrailExtends(cfg.policy, s.ranked, AuditOf(s.events).sent, before, s.attempted, p);
  }

  /** Ending the workflow with no candidate left to try. */
  lemma FinishedKeepsInvariant(cfg: Config, s: AgentState, before: set<string>, executions: nat, feedbacks: nat)
    requires var sent := AuditOf(s.events).sent;
             HasTrail(cfg.policy, s.ranked, sent, before) && |sent| == s.healingAttempts == feedbacks
    requires before <= s.attempted && s.healingAttempts <= cfg.policy.maxHealingAttempts
    requires executions == s.retries + 1 && s.retries <= cfg.policy.maxRetries
    requires AuditOf(s.events) == Audit(AuditOf(s.events).sent, executions, feedbacks, s.retries)
    ensures Invariant(cfg, Finished(s), executions, feedbacks)
  {
    FinishedAudit(s);
    TrailGrows(cfg.policy, s.ranked, AuditOf(s.events).sent, before, s.attempted);
  }

  /** A decision that the policy takes, as far as a run depends on it. */
  lemma DecisionCandidate(cfg: PolicyConfig, d: Decision, analysis: Option<Analysis>, ranked: seq<Candidate>,
                          attempts: nat, attempted: set<string>, history: History) returns (p: nat)
    requires SafeDecision(cfg, d, analysis, ranked, attempts, attempted, history)
    ensures d.selected.Some? ==>
      FirstEligible(cfg, ranked, attempted, p) && d.selected == Some(ranked[p]) && attempts < cfg.maxHealingAttempts
  {
    p := 0;
    if d.selected.Some? {
      p :| FirstEligible(cfg, ranked, attempted, p) && d.selected == Some(ranked[p]);
    }
  }

  /** Acting on a decision that carries the first candidate that may still be tried, or none. */
  lemma RoutedKeepsInvariant(cfg: Config, s: AgentState, d: Decision, p: nat, executions: nat)
    requires s.status == Active && s.attempted == {} && s.healingAttempts == 0 && s.retries <= cfg.policy.maxRetries
    requires executions == s.retries + 1 && AuditOf(s.events) == Audit([], executions, 0, s.retries)
    requires s.analysis.Some? && s.recommendation.Some? && (d.selected.None? ==> d.action != ABORT)
    requires d.selected.Some? ==> FirstEligible(cfg.policy, s.ranked, s.attempted, p) && d.selected == Some(s.ranked[p])
    requires d.selected.Some? ==> 0 < cfg.policy.maxHealingAttempts
    ensures Invariant(cfg, Routed(s, d), executions, 0)
    ensures Routed(s, d).step != ABORTED && Routed(s, d).workflowId == s.workflowId
  {
    NoTrail(cfg.policy, s.ranked, {});
    if d.selected.Some? {
      AttemptKeepsInvariant(cfg, s, {}, p, executions, 0);
    } else {
      FinishedAudit(s);
    }
  }

  /** Once the check before candidates has passed, the policy does not abort. */
  lemma NoLateAbort(cfg: Config, a: Answers, attempts: nat, retries: nat, attempted: set<string>)
    requires attempts < cfg.policy.maxHealingAttempts
    ensures Evaluate(cfg.policy, a.analysis, a.recommendation.candidates, attempts, retries, attempted, a.history).action
         != ABORT
  {
  }

  /** A failed execution whose failure is not settled before the candidates are ranked. */
  lemma {:induction false} HealingFlowKeepsInvariant(cfg: Config, s: AgentState, a: Answers, executions: nat)
    requires ValidConfig(cfg) && s.step == EXECUTION_PENDING && s.status == Active
    requires s.attempted == {} && s.healingAttempts == 0 && s.retries <= cfg.policy.maxRetries
    requires executions == s.retries + 1 && AuditOf(s.events) == Audit([], executions, 0, s.retries)
    requires s.analysis == Some(a.analysis)
    ensures var decided := Decided(cfg, s, a); var t := Routed(decided, decided.decision.value);
            Invariant(cfg, t, executions, 0) && t.step != ABORTED && t.workflowId == s.workflowId
  {
    var decided := Decided(cfg, s, a);
    var d := decided.decision.value;
    DecidedAudit(cfg, s, a);
    EvaluateIsSafe(cfg.policy, a.analysis, a.recommendation.candidates, s.healingAttempts, s.retries, s.attempted, a.history);
    NoLateAbort(cfg, a, s.healingAttempts, s.retries, s.attempted);
    var p := DecisionCandidate(cfg.policy, d, Some(a.analysis), decided.ranked, s.healingAttempts, s.attempted, a.history);
    RoutedKeepsInvariant(cfg, decided, d, p, executions);
  }

  /** A failure settled before any candidate is generated: retried, or completed without healing. */
  lemma {:induction false} SettledKeepsInvariant(cfg: Config, known: AgentState, t: FailureType,
                                                 action: RecoveryAction, executions: nat)
    requires ValidConfig(cfg) && known.status == Active && known.step == EXECUTION_PENDING
    requires known.attempted == {} && known.healingAttempts == 0 && known.retries <= cfg.policy.maxRetries
    requires executions == known.retries + 1 && AuditOf(known.events) == Audit([], executions, 0, known.retries)
    requires PreCheck(cfg, t, 0, known.retries) == Some(action)
    ensures var s := SettledBy(known, t, action);
            Invariant(cfg, s, executions, 0) && s.step != ABORTED && s.workflowId == known.workflowId
  {
    var noted := known.(decision := Some(Early(t, action, known.healingAttempts, known.retries)));
    var decided := Log(noted, RECOVERY_DECISION_CREATED, ANALYZING_FAILURE);
    LogAudit(noted, RECOVERY_DECISION_CREATED, ANALYZING_FAILURE);
    LogAudit(decided.(step := EXECUTION_PENDING, retries := known.retries + 1), RETRY_INITIATED, RETRYING);
    FinishedAudit(decided);
    NoTrail(cfg.policy, known.ranked, {});
  }

  /** A failed execution with its context. */
  lemma FailureKeepsInvariant(cfg: Config, s: AgentState, a: Answers, executions: nat)
    requires ValidConfig(cfg) && s.step == EXECUTION_PENDING && s.status == Active && s.context.Some?
    requires s.attempted == {} && s.healingAttempts == 0 && s.retries <= cfg.policy.maxRetries
    requires executions == s.retries + 1 && AuditOf(s.events) == Audit([], executions, 0, s.retries)
    ensures var t := FailureOutcome(cfg, s, a);
            Invariant(cfg, t, executions, 0) && t.step != ABORTED && t.workflowId == s.workflowId
  {
    var t := a.analysis.failureType;
    var known := Log(s.(analysis := Some(a.analysis)), FAILURE_ANALYSIS_COMPLETED, ANALYZING_FAILURE);
    LogAudit(s.(analysis := Some(a.analysis)), FAILURE_ANALYSIS_COMPLETED, ANALYZING_FAILURE);
    var early := PreCheck(cfg, t, s.healingAttempts, s.retries);
    if early.None? {
      HealingFlowKeepsInvariant(cfg, known, a, executions);
    } else {
      SettledKeepsInvariant(cfg, known, t, early.value, executions);
    }
  }

  lemma {:induction false} ExecutionKeepsInvariant(cfg: Config, s: AgentState, result: ExecutionResult, a: Answers,
                                executions: nat, feedbacks: nat)
    requires ValidConfig(cfg) && Invariant(cfg, s, executions, feedbacks)
    requires ExecutionOutcome(cfg, s, result, a).Ok?
    ensures var t := ExecutionOutcome(cfg, s, result, a).value;
            && Invariant(cfg, t, executions + 1, feedbacks) && t.workflowId == s.workflowId
            && (t.step == ABORTED <==> !result.success && result.context == None)
  {
    var received := Log(s, EXECUTION_RESULT_RECEIVED, EXECUTION_PENDING);
    LogAudit(s, EXECUTION_RESULT_RECEIVED, EXECUTION_PENDING);
    if !result.success && result.context.Some? {
      FailureKeepsInvariant(cfg, received.(context := result.context), a, executions + 1);
    } else {
      FinishedAudit(received);
    }
  }

  lemma HeardAudit(s: AgentState, f: Feedback)
    ensures var a := AuditOf(s.events);
            AuditOf(Heard(s, f).events) == a.(feedbacks := a.feedbacks + 1)
  {
    var noted := s.(lastFeedback := Some(f));
    LogAudit(noted, HEALING_RESULT_RECEIVED, HEALING_PENDING_VALIDATION);
    LogAudit(Log(noted, HEALING_RESULT_RECEIVED, HEALING_PENDING_VALIDATION), HEALING_HISTORY_UPDATED,
             HEALING_PENDING_VALIDATION);
  }

  lemma {:induction false} HealingKeepsInvariant(cfg: Config, s: AgentState, f: Feedback, history: History,
                                                 executions: nat, feedbacks: nat)
    requires ValidConfig(cfg) && Invariant(cfg, s, executions, feedbacks)
    requires HealingOutcome(cfg, s, f, history).Ok?
    ensures var t := HealingOutcome(cfg, s, f, history).value;
            Invariant(cfg, t, executions, feedbacks + 1) && t.step != ABORTED && t.workflowId == s.workflowId
  {
    var heard := Heard(s, f);
    HeardAudit(s, f);
    if f.validation == FAILURE {
      ContinuationKeepsInvariant(cfg, heard.(attempted := s.attempted + {f.attemptedSelector}), s.attempted, history,
                                 executions, feedbacks + 1);
    } else {
      FinishedAudit(heard);
    }
  }

  /** After a failed attempt the next candidate is tried, or the workflow completes. */
  lemma {:induction false} ContinuationKeepsInvariant(cfg: Config, s: AgentState, before: set<string>, history: History,
                                   executions: nat, feedbacks: nat)
    requires var sent := AuditOf(s.events).sent;
             HasTrail(cfg.policy, s.ranked, sent, before) && |sent| == s.healingAttempts == feedbacks
    requires before <= s.attempted && s.healingAttempts <= cfg.policy.maxHealingAttempts
    requires s.analysis.Some? && s.recommendation.Some? && s.status == Active && Pending(s)
    requires executions == s.retries + 1 && s.retries <= cfg.policy.maxRetries
    requires AuditOf(s.events) == Audit(AuditOf(s.events).sent, executions, feedbacks, s.retries)
    ensures var t := AfterFailure(cfg, s, history);
            Invariant(cfg, t, executions, feedbacks) && t.step != ABORTED && t.workflowId == s.workflowId
  {
    var next := Continued(cfg, s, history);
    var d := next.decision.value;
    LogAudit(s.(decision := Some(d)), RECOVERY_DECISION_CREATED, HEALING_PENDING_VALIDATION);
    ContinuationIsSafe(cfg.policy, s.analysis, s.ranked, s.healingAttempts, s.attempted, history);
    var p := DecisionCandidate(cfg.policy, d, s.analysis, s.ranked, s.healingAttempts, s.attempted, history);
    if d.selected.Some? {
      AttemptKeepsInvariant(cfg, next, before, p, executions, feedbacks);
    } else {
      FinishedKeepsInvariant(cfg, next, before, executions, feedbacks);
    }
  }

  /** One submission on a state the run has reached. */
  lemma {:induction false} SubmitKeepsInvariant(cfg: Config, w: World, sub: Submission, executions: nat, feedbacks: nat)
    requires ValidConfig(cfg) && Invariant(cfg, w.state, executions, feedbacks) && Submit(cfg, w, sub).Ok?
    ensures var t := Submit(cfg, w, sub).value;
            && Invariant(cfg, t.state, executions + (if sub.Executed? then 1 else 0),
                         feedbacks + (if sub.Validated? then 1 else 0))
            && t.memory == w.memory + (if sub.Validated? then [RecordOf(sub.feedback)] else [])
            && t.state.workflowId == w.state.workflowId
            && (t.state.step == ABORTED <==> NoContext(sub))
  {
    match sub
    case Executed(result, a) => ExecutionKeepsInvariant(cfg, w.state, result, a, executions, feedbacks);
    case Validated(f, history) => HealingKeepsInvariant(cfg, w.state, f, history, executions, feedbacks);
  }

  /** A failed execution reported without the context of its failure. */
  predicate NoContext(sub: Submission) {
    sub.Executed? && !sub.result.success && sub.result.context == None
  }

  ghost predicate Reached(cfg: Config, id: string, memory: seq<HealingRecord>, subs: seq<Submission>, w: World) {
    && Invariant(cfg, w.state, Executions(subs), |Feedbacks(subs)|)
    && w.memory == memory + Feedbacks(subs) && w.state.workflowId == id
    && (w.state.step == ABORTED <==> subs != [] && NoContext(subs[|subs| - 1]))
  }

  lemma FreshInvariant(cfg: Config, id: string, memory: seq<HealingRecord>)
    ensures Invariant(cfg, Fresh(id, memory).state, 0, 0)
  {
    var blank := AgentState(id, EXECUTION_PENDING, Active, None, None, [], None, None, None, {}, 0, 0, []);
    LogAudit(blank, WORKFLOW_STARTED, PLANNING);
    LogAudit(Log(blank, WORKFLOW_STARTED, PLANNING), TEST_PLAN_GENERATED, PLANNING);
    NoTrail(cfg.policy, [], {});
  }

  lemma {:induction false} RunInvariant(cfg: Config, id: string, memory: seq<HealingRecord>, subs: seq<Submission>)
    requires ValidConfig(cfg) && Run(cfg, Fresh(id, memory), subs).Ok?
    ensures Reached(cfg, id, memory, subs, Run(cfg, Fresh(id, memory), subs).value)
  {
    if subs == [] {
      FreshInvariant(cfg, id, memory);
      assert memory + [] == memory;
    } else {
      var init, last := subs[..|subs| - 1], subs[|subs| - 1];
      RunInvariant(cfg, id, memory, init);
      var w := Run(cfg, Fresh(id, memory), init).value;
      SubmitKeepsInvariant(cfg, w, last, Executions(init), |Feedbacks(init)|);
      StepCounts(subs);
      assert memory + Feedbacks(init) + (if last.Validated? then [RecordOf(last.feedback)] else [])
          == memory + Feedbacks(subs);
    }
  }

  lemma StepCounts(subs: seq<Submission>)
    requires subs != []
    ensures var init, last := subs[..|subs| - 1], subs[|subs| - 1];
            && Executions(subs) == Executions(init) + (if last.Executed? then 1 else 0)
            && |Feedbacks(subs)| == |Feedbacks(init)| + (if last.Validated? then 1 else 0)
  {
  }

  // ---- Main results, for every run ----

  /**
   * Every run ends.  The number of accepted submissions is accounted for exactly by the two budgets, so
   * it is at most max_retries + 1 + the policy's max_healing_attempts.
   */
  lemma {:induction false} RunsEnd(cfg: Config, id: string, memory: seq<HealingRecord>, subs: seq<Submission>)
    requires ValidConfig(cfg) && Run(cfg, Fresh(id, memory), subs).Ok?
    ensures var s := Run(cfg, Fresh(id, memory), subs).value.state;
            && |subs| == s.retries + (if s.step == EXECUTION_PENDING then 0 else 1)
                         + s.healingAttempts - (if Pending(s) then 1 else 0)
            && |subs| <= cfg.policy.maxRetries + 1 + cfg.policy.maxHealingAttempts
  {
    RunInvariant(cfg, id, memory, subs);
    SubmissionsSplit(subs);
  }

  /** A run that is over accepts nothing more; one that is not accepts exactly one kind of submission. */
  lemma {:induction false} OnlyOneKindAccepted(cfg: Config, id: string, memory: seq<HealingRecord>,
                                               subs: seq<Submission>, next: Submission)
    requires ValidConfig(cfg) && Run(cfg, Fresh(id, memory), subs).Ok?
    ensures var s := Run(cfg, Fresh(id, memory), subs).value.state;
            Run(cfg, Fresh(id, memory), subs + [next]).Ok? <==>
              match next
              case Executed(result, _) => s.step == EXECUTION_PENDING && result.workflowId == id
              case Validated(f, _) => Pending(s) && Accepted(Healing(RecordOf(f)))
  {
    RunInvariant(cfg, id, memory, subs);
    assert (subs + [next])[..|subs|] == subs;
  }

  /** Memory gains exactly one record per healing submission, in order; counters, events and status agree. */
  lemma {:induction false} RunAccounting(cfg: Config, id: string, memory: seq<HealingRecord>, subs: seq<Submission>)
    requires ValidConfig(cfg) && Run(cfg, Fresh(id, memory), subs).Ok?
    ensures var w := Run(cfg, Fresh(id, memory), subs).value;
            && w.memory == memory + Feedbacks(subs)
            && w.state.healingAttempts == |Feedbacks(subs)| + (if Pending(w.state) then 1 else 0)
            && Accounts(cfg, w.state, Executions(subs), |Feedbacks(subs)|)
            && StepOk(w.state)
  {
    RunInvariant(cfg, id, memory, subs);
  }

  // ---- What is remembered of a feedback ----

  /** Accepted feedback adds one record: every field the feedback's own, and its verdict true, false or open. */
  lemma FeedbackIsRemembered(cfg: Config, w: World, f: Feedback, history: History)
    requires Submit(cfg, w, Validated(f, history)).Ok?
    ensures var after, n := Submit(cfg, w, Validated(f, history)).value.memory, |w.memory|;
            && |after| == n + 1 && after[..n] == w.memory
            && (after[n].validation == Some(true) <==> f.validation == SUCCESS)
            && (after[n].validation == Some(false) <==> f.validation == FAILURE)
            && (after[n].validation == None <==>
                 f.validation == ValidationStatus.ERROR || f.validation == ValidationStatus.SKIPPED)
            && after[n].healingId == f.healingId && after[n].testId == f.testId
            && after[n].oldSelector == f.originalSelector && after[n].newSelector == f.attemptedSelector
            && after[n].confidence == f.confidence && after[n].timestamp == f.timestamp
  {
  }

  /** How many feedbacks with a verdict were submitted. */
  function Submitted(subs: seq<Submission>, v: ValidationStatus): nat {
    if subs == [] then 0
    else
      var last := subs[|subs| - 1];
      Submitted(subs[..|subs| - 1], v) + (if last.Validated? && last.feedback.validation == v then 1 else 0)
  }

  function Judged(v: Option<bool>): HealingRecord -> bool {
    (r: HealingRecord) => r.validation == v
  }

  lemma {:induction false} FeedbackVerdicts(subs: seq<Submission>)
    ensures |Filter(Feedbacks(subs), Judged(Some(true)))| == Submitted(subs, SUCCESS)
    ensures |Filter(Feedbacks(subs), Judged(Some(false)))| == Submitted(subs, FAILURE)
    ensures |Filter(Feedbacks(subs), Judged(None))|
         == Submitted(subs, ValidationStatus.ERROR) + Submitted(subs, ValidationStatus.SKIPPED)
  {
    if subs != [] {
      var init, last := subs[..|subs| - 1], subs[|subs| - 1];
      FeedbackVerdicts(init);
      if last.Validated? {
        FeedbackVerdict(Feedbacks(init), last.feedback, Some(true));
        FeedbackVerdict(Feedbacks(init), last.feedback, Some(false));
        FeedbackVerdict(Feedbacks(init), last.feedback, None);
      } else {
        assert Feedbacks(subs) == Feedbacks(init);
      }
    }
  }

  lemma FeedbackVerdict(before: seq<HealingRecord>, f: Feedback, v: Option<bool>)
    ensures |Filter(before + [RecordOf(f)], Judged(v))|
         == |Filter(before, Judged(v))| + if RecordOf(f).validation == v then 1 else 0
  {
    FilterAppend(before, [RecordOf(f)], Judged(v));
    assert [RecordOf(f)][1..] == [];
  }

  /**
   * Over every run the new records in the memory count as successes the SUCCESS feedbacks, as rejections the FAILURE
   * feedbacks, and leave the rest open.
   */
  lemma {:induction false} RunRemembersVerdicts(cfg: Config, id: string, memory: seq<HealingRecord>, subs: seq<Submission>)
    requires ValidConfig(cfg) && Run(cfg, Fresh(id, memory), subs).Ok?
    ensures var after := Run(cfg, Fresh(id, memory), subs).value.memory;
            && |memory| <= |after| && after[..|memory|] == memory
            && var news := after[|memory|..];
               && |Filter(news, Judged(Some(true)))| == Submitted(subs, SUCCESS)
               && |Filter(news, Judged(Some(false)))| == Submitted(subs, FAILURE)
               && |Filter(news, Judged(None))|
                  == Submitted(subs, ValidationStatus.ERROR) + Submitted(subs, ValidationStatus.SKIPPED)
  {
    RunAccounting(cfg, id, memory, subs);
    var after := Run(cfg, Fresh(id, memory), subs).value.memory;
    assert after[|memory|..] == Feedbacks(subs);
    FeedbackVerdicts(subs);
  }

  /** The recommendations of a state stand at the positions ix of its ranking, each further on than the last. */
  ghost predicate Advances(s: AgentState, sent: seq<Sent>, ix: seq<nat>) {
    && |sent| == s.healingAttempts == |ix|
    && (forall k :: 0 <= k < |ix| ==>
      && ix[k] < |s.ranked| && sent[k] == Sent(s.ranked[ix[k]].selector, s.ranked[ix[k]].confidence, k + 1))
    && (forall j, k :: 0 <= j < k < |ix| ==> ix[j] < ix[k] && sent[j].selector != sent[k].selector)
  }

  lemma AdvancesDown(s: AgentState, sent: seq<Sent>, ix: seq<nat>)
    requires Advances(s, sent, ix) && Descending(s.ranked, Confidence)
    ensures forall j, k :: 0 <= j < k < |sent| ==> sent[j].confidence >= sent[k].confidence
  {
    forall j, k | 0 <= j < k < |sent| ensures sent[j].confidence >= sent[k].confidence {
      assert Confidence(s.ranked[ix[j]]) >= Confidence(s.ranked[ix[k]]);
    }
  }

  lemma InvariantAdvances(cfg: Config, s: AgentState, executions: nat, feedbacks: nat) returns (ix: seq<nat>)
    requires Invariant(cfg, s, executions, feedbacks)
    ensures Advances(s, AuditOf(s.events).sent, ix)
  {
    ix :| Trail(cfg.policy, s.ranked, AuditOf(s.events).sent, s.attempted, ix);
  }

  /** Over one run the recommended selectors differ pairwise, stand at increasing positions, and never gain confidence. */
  lemma {:induction false} RecommendationsAdvance(cfg: Config, id: string, memory: seq<HealingRecord>,
                                                  subs: seq<Submission>)
    returns (ix: seq<nat>)
    requires ValidConfig(cfg) && Run(cfg, Fresh(id, memory), subs).Ok?
    ensures var s := Run(cfg, Fresh(id, memory), subs).value.state;
            var sent := AuditOf(s.events).sent;
            && Advances(s, sent, ix)
            && (Descending(s.ranked, Confidence) ==>
                  forall j, k :: 0 <= j < k < |sent| ==> sent[j].confidence >= sent[k].confidence)
            && (Pending(s) ==> Waiting(s))
  {
    RunInvariant(cfg, id, memory, subs);
    var s := Run(cfg, Fresh(id, memory), subs).value.state;
    ix := InvariantAdvances(cfg, s, Executions(subs), |Feedbacks(subs)|);
    if Descending(s.ranked, Confidence) {
      AdvancesDown(s, AuditOf(s.events).sent, ix);
    }
  }

  /**
   * A workflow ends ABORTED in one way only: a failed execution reported without its failure context.
   * Running out of attempts or of candidates ends it COMPLETED, although the policy's decision says ABORT.
   */
  lemma {:induction false} AbortedOnlyWithoutContext(cfg: Config, id: string, memory: seq<HealingRecord>,
                                                     subs: seq<Submission>)
    requires ValidConfig(cfg) && Run(cfg, Fresh(id, memory), subs).Ok?
    ensures Run(cfg, Fresh(id, memory), subs).value.state.step == ABORTED <==>
            subs != [] && var last := subs[|subs| - 1];
              last.Executed? && !last.result.success && last.result.context == None
  {
    RunInvariant(cfg, id, memory, subs);
  }

  /** When the policy says stop after a failed attempt, its recorded decision is ABORT but the workflow is COMPLETED. */
  lemma LimitEndsCompleted(cfg: Config, s: AgentState, f: Feedback, history: History)
    requires HealingOutcome(cfg, s, f, history).Ok? && f.validation == FAILURE
    requires s.healingAttempts >= cfg.policy.maxHealingAttempts
    ensures var t := HealingOutcome(cfg, s, f, history).value;
            && t.decision.Some? && t.decision.value.action == ABORT && t.decision.value.nextState == ABORTED
            && t.step == COMPLETED && t.status == Completed && t.healingAttempts == s.healingAttempts
  {
  }

  /** Both limits are one attempt, and any candidate of at least 0.5 is tried. */
  function OneAttempt(): Config {
    Config(1, PolicyConfig(1, 0.5, 0.5, false, false, 0, 0.05, 0.0, map[]))
  }

  function OneCandidate(): Candidate { Candidate("b", 0.9, 0.0, 0.0, 0.0, 0.0, 0.0, 0.0, 0.0, 0.0) }

  function OneFailure(): seq<Submission> {
    [Executed(ExecutionResult("w", false, Some(FailureContext("a"))),
              Answers(Analysis(SELECTOR_CHANGED, "a"), Recommendation([OneCandidate()], None), map[])),
     Validated(Feedback("h", "t", "a", "b", FAILURE, 0.9, 0.0), map[])]
  }

  lemma OneCandidateTried(attempts: nat, attempted: set<string>)
    requires attempts == 0 && attempted == {}
    ensures var d := Evaluate(OneAttempt().policy, Analysis(SELECTOR_CHANGED, "a"), [OneCandidate()], 0, 0, {}, map[]);
            d.action == TRY_HEALING && d.selected == Some(OneCandidate())
  {
    assert [OneCandidate()][1..] == [];
    assert Eligible(OneAttempt().policy, [OneCandidate()], {}) == [OneCandidate()];
  }

  /** The first submission of that run. */
  lemma OneFailurePending()
    ensures var w := Submit(OneAttempt(), Fresh("w", []), OneFailure()[0]);
            w.Ok? && w.value.state.step == HEALING_PENDING_VALIDATION && w.value.state.healingAttempts == 1
            && w.value.memory == []
  {
    OneCandidateTried(0, {});
  }

  lemma {:induction false} RunOfTwo(cfg: Config, start: World, first: Submission, second: Submission)
    requires Submit(cfg, start, first).Ok?
    ensures Run(cfg, start, [first, second]) == Submit(cfg, Submit(cfg, start, first).value, second)
  {
    assert [first, second][..1] == [first] && [first][..0] == [];
    assert Run(cfg, start, []) == Ok(start);
    assert Run(cfg, start, [first]) == Submit(cfg, start, first);
  }

  /** A reachable run at the limit: a failed execution, and a failed healing after which the decision is ABORT. */
  lemma LimitIsReached()
    ensures ValidConfig(OneAttempt())
    ensures var w := Run(OneAttempt(), Fresh("w", []), OneFailure());
            && w.Ok? && w.value.state.decision.Some? && w.value.state.decision.value.action == ABORT
            && w.value.state.step == COMPLETED && w.value.state.status == Completed
  {
    var first, second := OneFailure()[0], OneFailure()[1];
    OneFailurePending();
    var w := Submit(OneAttempt(), Fresh("w", []), first).value;
    RunOfTwo(OneAttempt(), Fresh("w", []), first, second);
    StorableIds();
    LimitEndsCompleted(OneAttempt(), w.state, second.feedback, second.history);
  }

  lemma StorableIds()
    ensures Accepted(Healing(RecordOf(OneFailure()[1].feedback)))
  {
    var r := RecordOf(OneFailure()[1].feedback);
    assert !IsSpace(r.healingId[0]) && !IsSpace(r.oldSelector[0]) && !IsSpace(r.newSelector[0]);
  }

  // ---- Replaying an old state ----

  /** The memory after the same submission was made n times on the same state. */
  function Replayed(cfg: Config, s: AgentState, memory: seq<HealingRecord>, sub: Submission, n: nat): seq<HealingRecord> {
    if n == 0 then memory
    else
      var before := Replayed(cfg, s, memory, sub, n - 1);
      match Submit(cfg, World(s, before), sub)
      case Ok(w) => w.memory
      case Err(_) => before
  }

  /**
   * The results above are about chains of returned states.  A caller who goes back to a state that is waiting for
   * validation has its feedback accepted, and its record stored, every time.
   */
  lemma {:induction false} ReplayIsAccepted(cfg: Config, s: AgentState, memory: seq<HealingRecord>, f: Feedback,
                                            history: History, n: nat)
    requires Pending(s) && Accepted(Healing(RecordOf(f)))
    ensures Submit(cfg, World(s, Replayed(cfg, s, memory, Validated(f, history), n)), Validated(f, history)).Ok?
    ensures Replayed(cfg, s, memory, Validated(f, history), n) == memory + seq(n, _ => RecordOf(f))
  {
    if n > 0 {
      ReplayIsAccepted(cfg, s, memory, f, history, n - 1);
      assert memory + seq(n - 1, _ => RecordOf(f)) + [RecordOf(f)] == memory + seq(n, _ => RecordOf(f));
    }
  }

  /** The memory's index after the same feedback was sent n times. */
  function Resent(cfg: Config, s: AgentState, memory: seq<HealingRecord>, f: Feedback, history: History, n: nat)
    : seq<HealingRecord>
  {
    if n == 0 then memory else Resent(cfg, s, memory, f, history, n - 1) + Remembered(cfg, s, f, history)
  }

  /**
   * While the store is unavailable the feedback is answered with an error and the state stays as it was, so it can be
   * sent again; yet each time its record enters the index, and once more when it is accepted.
   */
  lemma {:induction false} ResentIsStoredAgain(cfg: Config, s: AgentState, memory: seq<HealingRecord>, f: Feedback,
                                               history: History, n: nat)
    requires Pending(s) && Accepted(Healing(RecordOf(f)))
    ensures StoredOutcome(cfg, s, f, history, false) == Err(StoreUnavailable)
    ensures StoredOutcome(cfg, s, f, history, true).Ok?
    ensures Resent(cfg, s, memory, f, history, n) == memory + seq(n, _ => RecordOf(f))
  {
    if n > 0 {
      ResentIsStoredAgain(cfg, s, memory, f, history, n - 1);
      assert memory + seq(n - 1, _ => RecordOf(f)) + [RecordOf(f)] == memory + seq(n, _ => RecordOf(f));
    }
  }

  /** Early and late decision, compared. */
  ghost predicate Agree(cfg: Config, analysis: Analysis, early: Option<RecoveryAction>, late: RecoveryAction) {
    var p := PolicyFor(cfg.policy, analysis.failureType);
    && (early.Some? ==> (early.value == late <==> !(p.retryable && !p.healable && !cfg.policy.allowRetry)))
    && (early.None? ==> late != RETRY && late != ABORT)
  }

  lemma AgreeBelowLimits(cfg: Config, analysis: Analysis, ranked: seq<Candidate>, attempts: nat, retries: nat,
                         attempted: set<string>, history: History)
    requires attempts < cfg.maxHealingAttempts && attempts < cfg.policy.maxHealingAttempts
    ensures PreCheck(cfg, analysis.failureType, attempts, retries) != Some(ABORT)
    ensures Agree(cfg, analysis, PreCheck(cfg, analysis.failureType, attempts, retries),
                  Evaluate(cfg.policy, analysis, ranked, attempts, retries, attempted, history).action)
  {
    EvaluateIsSafe(cfg.policy, analysis, ranked, attempts, retries, attempted, history);
  }

  /**
   * The orchestrator's check before candidates agrees with the policy wherever a run can be: an early
   * decision is the policy's, for any candidates, unless the failure type is retryable, not healable and
   * retries are switched off (then REQUIRE_FURTHER_ANALYSIS against DO_NOT_HEAL); when the check
   * passes the policy can answer neither RETRY nor ABORT.
   */
  lemma {:induction false} PreCheckAgrees(cfg: Config, id: string, memory: seq<HealingRecord>, subs: seq<Submission>,
                                          analysis: Analysis, ranked: seq<Candidate>, history: History)
    requires ValidConfig(cfg) && Run(cfg, Fresh(id, memory), subs).Ok?
    requires Run(cfg, Fresh(id, memory), subs).value.state.step == EXECUTION_PENDING
    ensures var s := Run(cfg, Fresh(id, memory), subs).value.state;
            var early := PreCheck(cfg, analysis.failureType, s.healingAttempts, s.retries);
            var late := Evaluate(cfg.policy, analysis, ranked, s.healingAttempts, s.retries, s.attempted, history);
            early != Some(ABORT) && Agree(cfg, analysis, early, late.action)
  {
    RunInvariant(cfg, id, memory, subs);
    var s := Run(cfg, Fresh(id, memory), subs).value.state;
    AgreeBelowLimits(cfg, analysis, ranked, s.healingAttempts, s.retries, s.attempted, history);
  }

  /** The same agreement for any counters, when the two attempt limits are configured equal. */
  lemma PreCheckAgreesWithEqualLimits(cfg: Config, analysis: Analysis, ranked: seq<Candidate>, attempts: nat,
                                      retries: nat, attempted: set<string>, history: History)
    requires cfg.maxHealingAttempts == cfg.policy.maxHealingAttempts
    ensures var early := PreCheck(cfg, analysis.failureType, attempts, retries);
            var late := Evaluate(cfg.policy, analysis, ranked, attempts, retries, attempted, history).action;
            var p := PolicyFor(cfg.policy, analysis.failureType);
            && (early.Some? ==>
                  (early.value == late <==>
                     attempts >= cfg.maxHealingAttempts || !(p.retryable && !p.healable && !cfg.policy.allowRetry)))
            && (early.None? ==> late != RETRY && late != ABORT)
  {
    EvaluateIsSafe(cfg.policy, analysis, ranked, attempts, retries, attempted, history);
  }
}
