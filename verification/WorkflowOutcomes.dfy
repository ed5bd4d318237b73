/** What one submission makes of a workflow, branch by branch: every field and every event, by the inputs. */
module WorkflowOutcomes {
  import opened Sequences
  import opened WhiteSpace
  import opened MemoryRecords
  import opened Candidates
  import opened WorkflowSteps
  import opened RecoveryPolicy
  import opened Orchestrator

  function At(kind: EventKind, step: WorkflowStep): Event { Event(kind, step, None) }

  lemma Two(events: seq<Event>, e: Event, f: Event)
    ensures events + [e] + [f] == events + [e, f]
  {
  }

  // ---- Execution results ----

  /** A failed run that gets as far as the analysis: the workflow waits for it, and it says where it failed. */
  predicate FailedRun(s: AgentState, result: ExecutionResult) {
    s.step == EXECUTION_PENDING && result.workflowId == s.workflowId && !result.success && result.context.Some?
  }

  /** What is known then: the context and the analysis, and the events so far. */
  function Analysed(s: AgentState, result: ExecutionResult, a: Answers): AgentState {
    s.(context := result.context, analysis := Some(a.analysis),
       events := s.events + [At(EXECUTION_RESULT_RECEIVED, EXECUTION_PENDING),
                             At(FAILURE_ANALYSIS_COMPLETED, ANALYZING_FAILURE)])
  }

  lemma ResultRefused(cfg: Config, s: AgentState, result: ExecutionResult, a: Answers)
    ensures s.step != EXECUTION_PENDING ==> ExecutionOutcome(cfg, s, result, a) == Err(WrongStep)
    ensures s.step == EXECUTION_PENDING && result.workflowId != s.workflowId ==>
      ExecutionOutcome(cfg, s, result, a) == Err(WrongWorkflow)
  {
  }

  lemma RunPassed(cfg: Config, s: AgentState, result: ExecutionResult, a: Answers)
    requires s.step == EXECUTION_PENDING && result.workflowId == s.workflowId && result.success
    ensures ExecutionOutcome(cfg, s, result, a)
         == Ok(s.(step := COMPLETED, status := Completed,
                  events := s.events + [At(EXECUTION_RESULT_RECEIVED, EXECUTION_PENDING),
                                        At(WORKFLOW_COMPLETED, COMPLETED)]))
  {
    Two(s.events, At(EXECUTION_RESULT_RECEIVED, EXECUTION_PENDING), At(WORKFLOW_COMPLETED, COMPLETED));
  }

  lemma ContextMissing(cfg: Config, s: AgentState, result: ExecutionResult, a: Answers)
    requires s.step == EXECUTION_PENDING && result.workflowId == s.workflowId && !result.success
    requires result.context == None
    ensures ExecutionOutcome(cfg, s, result, a)
         == Ok(s.(step := ABORTED, status := Aborted, context := None,
                  events := s.events + [At(EXECUTION_RESULT_RECEIVED, EXECUTION_PENDING)]))
  {
  }

  /** All attempts are used up. */
  lemma AttemptsUsedUp(cfg: Config, s: AgentState, result: ExecutionResult, a: Answers)
    requires FailedRun(s, result) && s.healingAttempts >= cfg.maxHealingAttempts
    ensures var known, t := Analysed(s, result, a), a.analysis.failureType;
            ExecutionOutcome(cfg, s, result, a)
            == Ok(known.(step := ABORTED, status := Aborted,
                         decision := Some(Decision(t, ABORT, 1.0, None, s.healingAttempts, 0, false, ABORTED)),
                         events := known.events + [At(RECOVERY_DECISION_CREATED, ANALYZING_FAILURE)]))
  {
    Two(s.events, At(EXECUTION_RESULT_RECEIVED, EXECUTION_PENDING), At(FAILURE_ANALYSIS_COMPLETED, ANALYZING_FAILURE));
  }

  /** The run is repeated, and counted. */
  lemma RunRetried(cfg: Config, s: AgentState, result: ExecutionResult, a: Answers)
    requires FailedRun(s, result) && s.healingAttempts < cfg.maxHealingAttempts
    requires MayRetry(cfg.policy, a.analysis.failureType, s.retries)
    ensures var known, t := Analysed(s, result, a), a.analysis.failureType;
            ExecutionOutcome(cfg, s, result, a)
            == Ok(known.(retries := s.retries + 1,
                         decision := Some(Decision(t, RETRY, 0.9, None, 0, s.retries, false, RETRYING)),
                         events := known.events + [At(RECOVERY_DECISION_CREATED, ANALYZING_FAILURE),
                                                   At(RETRY_INITIATED, RETRYING)]))
  {
    Two(s.events, At(EXECUTION_RESULT_RECEIVED, EXECUTION_PENDING), At(FAILURE_ANALYSIS_COMPLETED, ANALYZING_FAILURE));
    Two(Analysed(s, result, a).events, At(RECOVERY_DECISION_CREATED, ANALYZING_FAILURE), At(RETRY_INITIATED, RETRYING));
  }

  /** A type that is not healed ends the workflow; one that passes by itself is put to further analysis. */
  lemma RunNotHealed(cfg: Config, s: AgentState, result: ExecutionResult, a: Answers)
    requires FailedRun(s, result) && s.healingAttempts < cfg.maxHealingAttempts
    requires !MayRetry(cfg.policy, a.analysis.failureType, s.retries) && !MayHeal(cfg.policy, a.analysis.failureType)
    ensures var known, t := Analysed(s, result, a), a.analysis.failureType;
            var d := if Transient(cfg.policy, t)
                     then Decision(t, REQUIRE_FURTHER_ANALYSIS, 0.7, None, 0, 0, false, COMPLETED)
                     else Decision(t, DO_NOT_HEAL, 1.0, None, 0, 0, false, COMPLETED);
            ExecutionOutcome(cfg, s, result, a)
            == Ok(known.(step := COMPLETED, status := Completed, decision := Some(d),
                         events := known.events + [At(RECOVERY_DECISION_CREATED, ANALYZING_FAILURE),
                                                   At(WORKFLOW_COMPLETED, COMPLETED)]))
  {
    Two(s.events, At(EXECUTION_RESULT_RECEIVED, EXECUTION_PENDING), At(FAILURE_ANALYSIS_COMPLETED, ANALYZING_FAILURE));
    Two(Analysed(s, result, a).events, At(RECOVERY_DECISION_CREATED, ANALYZING_FAILURE), At(WORKFLOW_COMPLETED, COMPLETED));
  }

  /** The candidates ranked and the policy asked: ActionOf and HealsIff say what it decides. */
  function Judged(cfg: Config, s: AgentState, result: ExecutionResult, a: Answers): AgentState {
    var known := Analysed(s, result, a);
    known.(ranked := a.recommendation.candidates, recommendation := Some(a.recommendation),
           decision := Some(Evaluate(cfg.policy, a.analysis, a.recommendation.candidates, s.healingAttempts, s.retries,
                                     s.attempted, a.history)),
           events := known.events + [At(CANDIDATES_GENERATED, GENERATING_CANDIDATES),
                                     At(CANDIDATES_RANKED, RANKING_CANDIDATES),
                                     At(RECOVERY_DECISION_CREATED, DECIDING_HEALING),
                                     At(HEALING_DECISION_CREATED, DECIDING_HEALING)])
  }

  lemma JudgedEvents(events: seq<Event>)
    ensures events + [At(CANDIDATES_GENERATED, GENERATING_CANDIDATES)] + [At(CANDIDATES_RANKED, RANKING_CANDIDATES)]
            + [At(RECOVERY_DECISION_CREATED, DECIDING_HEALING)] + [At(HEALING_DECISION_CREATED, DECIDING_HEALING)]
         == events + [At(CANDIDATES_GENERATED, GENERATING_CANDIDATES), At(CANDIDATES_RANKED, RANKING_CANDIDATES),
                      At(RECOVERY_DECISION_CREATED, DECIDING_HEALING), At(HEALING_DECISION_CREATED, DECIDING_HEALING)]
  {
  }

  /**
   * A type that is healed: the selected candidate is sent out as one more attempt and ruled out from then on; without
   * one the workflow is over, aborted when the policy's own limit says so.
   */
  lemma RunHealed(cfg: Config, s: AgentState, result: ExecutionResult, a: Answers)
    requires FailedRun(s, result) && s.healingAttempts < cfg.maxHealingAttempts
    requires !MayRetry(cfg.policy, a.analysis.failureType, s.retries) && MayHeal(cfg.policy, a.analysis.failureType)
    ensures var judged := Judged(cfg, s, result, a);
            var d := judged.decision.value;
            ExecutionOutcome(cfg, s, result, a)
            == Ok(match d.selected
                  case Some(c) =>
                    judged.(step := HEALING_PENDING_VALIDATION, attempted := s.attempted + {c.selector},
                            healingAttempts := s.healingAttempts + 1,
                            recommendation := Some(Recommendation(a.recommendation.candidates, Some(c))),
                            events := judged.events + [Event(HEALING_RECOMMENDATION_SENT, HEALING_PENDING_VALIDATION,
                                                             Some(Sent(c.selector, c.confidence, s.healingAttempts + 1)))])
                  case None =>
                    if s.healingAttempts >= cfg.policy.maxHealingAttempts
                    then judged.(step := ABORTED, status := Aborted,
                                 events := judged.events + [At(WORKFLOW_ABORTED, ABORTED)])
                    else judged.(step := COMPLETED, status := Completed,
                                 events := judged.events + [At(WORKFLOW_COMPLETED, COMPLETED)]))
  {
    Two(s.events, At(EXECUTION_RESULT_RECEIVED, EXECUTION_PENDING), At(FAILURE_ANALYSIS_COMPLETED, ANALYZING_FAILURE));
    JudgedEvents(Analysed(s, result, a).events);
    ActionOf(cfg.policy, a.analysis, a.recommendation.candidates, s.healingAttempts, s.retries, s.attempted, a.history);
  }

  // ---- Healing feedback ----

  /** Feedback that can be stored: the healing and both selectors are named. */
  predicate Storable(f: Feedback) {
    !Blank(f.healingId) && !Blank(f.originalSelector) && !Blank(f.attemptedSelector)
  }

  /** Feedback received and stored. */
  function Received(s: AgentState, f: Feedback): AgentState {
    s.(lastFeedback := Some(f),
       events := s.events + [At(HEALING_RESULT_RECEIVED, HEALING_PENDING_VALIDATION),
                             At(HEALING_HISTORY_UPDATED, HEALING_PENDING_VALIDATION)])
  }

  lemma FeedbackRefused(cfg: Config, s: AgentState, f: Feedback, history: History)
    ensures s.step != HEALING_PENDING_VALIDATION ==> HealingOutcome(cfg, s, f, history) == Err(WrongStep)
    ensures s.step == HEALING_PENDING_VALIDATION && !Storable(f) ==> HealingOutcome(cfg, s, f, history) == Err(InvalidRecord)
  {
  }

  /** A validated attempt completes the workflow, and so does one without a verdict, which leaves no closing event. */
  lemma AttemptJudged(cfg: Config, s: AgentState, f: Feedback, history: History)
    requires s.step == HEALING_PENDING_VALIDATION && Storable(f) && f.validation != FAILURE
    ensures var heard := Received(s, f);
            HealingOutcome(cfg, s, f, history)
            == Ok(heard.(step := COMPLETED, status := Completed,
                         events := if f.validation == SUCCESS then heard.events + [At(WORKFLOW_COMPLETED, COMPLETED)]
                                   else heard.events))
  {
    Two(s.events, At(HEALING_RESULT_RECEIVED, HEALING_PENDING_VALIDATION),
        At(HEALING_HISTORY_UPDATED, HEALING_PENDING_VALIDATION));
  }

  /** A failed attempt: the next candidate is sent out, if ContinuesIff finds one; without one the workflow completes. */
  lemma AttemptFailed(cfg: Config, s: AgentState, f: Feedback, history: History)
    requires s.step == HEALING_PENDING_VALIDATION && Storable(f) && f.validation == FAILURE
    ensures var tried, n := s.attempted + {f.attemptedSelector}, s.healingAttempts;
            var d := EvaluateContinuation(cfg.policy, s.analysis, s.ranked, n, tried, history);
            var heard := Received(s, f);
            var next := heard.(decision := Some(d), attempted := tried,
                               events := heard.events + [At(RECOVERY_DECISION_CREATED, HEALING_PENDING_VALIDATION)]);
            HealingOutcome(cfg, s, f, history)
            == Ok(match d.selected
                  case Some(c) =>
                    next.(attempted := tried + {c.selector}, healingAttempts := n + 1,
                          recommendation := (match s.recommendation
                                             case Some(r) => Some(Recommendation(r.candidates, Some(c)))
                                             case None => None),
                          events := next.events + [Event(HEALING_RECOMMENDATION_SENT, HEALING_PENDING_VALIDATION,
                                                         Some(Sent(c.selector, c.confidence, n + 1)))])
                  case None =>
                    next.(step := COMPLETED, status := Completed,
                          events := next.events + [At(WORKFLOW_COMPLETED, COMPLETED)]))
  {
    Two(s.events, At(HEALING_RESULT_RECEIVED, HEALING_PENDING_VALIDATION),
        At(HEALING_HISTORY_UPDATED, HEALING_PENDING_VALIDATION));
  }

  // ---- Planning ----

  /** A new workflow has nothing but its events: it waits for a run, or is aborted if the planner failed. */
  lemma NewWorkflow(id: string, ok: bool)
    ensures var s := Planned(id, ok);
            && s == AgentState(id, if ok then EXECUTION_PENDING else ABORTED, if ok then Active else Aborted,
                               None, None, [], None, None, None, {}, 0, 0, s.events)
            && s.events == [At(WORKFLOW_STARTED, PLANNING),
                            if ok then At(TEST_PLAN_GENERATED, PLANNING) else At(WORKFLOW_ABORTED, ABORTED)]
  {
  }
}
