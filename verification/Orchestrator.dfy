/**
 * The workflow orchestrator (agents/orchestration/agent_orchestrator.py): an explicit state machine
 * driven by execution results and healing feedback.
 */
module Orchestrator {
  import opened Sequences
  import opened MemoryRecords
  import opened Candidates
  import opened WorkflowSteps
  import opened RecoveryPolicy

  /** The exceptions a submission can raise. */
  datatype Error = WrongStep | WrongWorkflow | InvalidRecord | StoreUnavailable | NoPlanner

  datatype Result<+T> = Ok(value: T) | Err(error: Error)

  datatype Status = Active | Completed | Aborted

  datatype EventKind =
    | WORKFLOW_STARTED | TEST_PLAN_GENERATED | EXECUTION_RESULT_RECEIVED | FAILURE_ANALYSIS_COMPLETED
    | CANDIDATES_GENERATED | CANDIDATES_RANKED | HEALING_DECISION_CREATED | HEALING_RECOMMENDATION_SENT
    | HEALING_RESULT_RECEIVED | HEALING_HISTORY_UPDATED | WORKFLOW_COMPLETED | WORKFLOW_ABORTED
    | RECOVERY_DECISION_CREATED | RETRY_INITIATED

  /** The metadata of a recommendation sent; the other events' metadata is not modelled. */
  datatype Sent = Sent(selector: string, confidence: real, attempt: nat)

  datatype Event = Event(kind: EventKind, step: WorkflowStep, sent: Option<Sent>)

  datatype FailureContext = FailureContext(target: string)

  datatype ExecutionResult = ExecutionResult(workflowId: string, success: bool, context: Option<FailureContext>)

  datatype ValidationStatus = SUCCESS | FAILURE | ERROR | SKIPPED

  datatype Feedback = Feedback(
    healingId: string, testId: string, originalSelector: string, attemptedSelector: string,
    validation: ValidationStatus, confidence: real, timestamp: real)

  /** What the healing engine recommends: ranked candidates and the one it would pick. */
  datatype Recommendation = Recommendation(candidates: seq<Candidate>, selected: Option<Candidate>)

  /** The answers of the components asked during the failure flow; nothing is assumed of them. */
  datatype Answers = Answers(analysis: Analysis, recommendation: Recommendation, history: History)

  datatype AgentState = AgentState(
    workflowId: string, step: WorkflowStep, status: Status,
    context: Option<FailureContext>, analysis: Option<Analysis>,
    ranked: seq<Candidate>, recommendation: Option<Recommendation>, decision: Option<Decision>,
    lastFeedback: Option<Feedback>, attempted: set<string>, healingAttempts: nat, retries: nat,
    events: seq<Event>)

  datatype Config = Config(maxHealingAttempts: nat, policy: PolicyConfig)

  /** `ge=1` on both attempt limits. */
  predicate ValidConfig(cfg: Config) {
    cfg.maxHealingAttempts >= 1 && cfg.policy.maxHealingAttempts >= 1
  }

  // ---- Transitions and events ----

  /** The source raises for a target outside the table; the precondition, proved at every call, says it never does. */
  function Transition(s: AgentState, target: WorkflowStep): AgentState
    requires target in ValidTransitions(s.step)
  {
    s.(step := target)
  }

  function AddEvent(s: AgentState, kind: EventKind): AgentState {
    s.(events := s.events + [Event(kind, s.step, None)])
  }

  function AddSent(s: AgentState, c: Candidate): AgentState {
    s.(events := s.events + [Event(HEALING_RECOMMENDATION_SENT, s.step,
                                   Some(Sent(c.selector, c.confidence, s.healingAttempts)))])
  }

  function RecordOf(f: Feedback): HealingRecord {
    HealingRecord(
      f.healingId, f.testId, f.originalSelector, f.attemptedSelector, f.confidence,
      match f.validation { case SUCCESS => Some(true) case FAILURE => Some(false) case _ => None },
      f.timestamp)
  }

  // ---- What each submission amounts to ----

  /** The decision taken before any candidate is generated, if any. */
  function PreCheck(cfg: Config, t: FailureType, attempts: nat, retries: nat): Option<RecoveryAction> {
    var p := PolicyFor(cfg.policy, t);
    if attempts >= cfg.maxHealingAttempts then Some(ABORT)
    else if RetryDue(cfg.policy, t, retries) then Some(RETRY)
    else if p.healable then None
    else if p.retryable then Some(REQUIRE_FURTHER_ANALYSIS)
    else Some(DO_NOT_HEAL)
  }

  function Early(t: FailureType, action: RecoveryAction, attempts: nat, retries: nat): Decision {
    match action
    case ABORT => Decision(t, ABORT, 1.0, None, attempts, 0, false, ABORTED)
    case RETRY => Decision(t, RETRY, 0.9, None, 0, retries, false, RETRYING)
    case REQUIRE_FURTHER_ANALYSIS => Decision(t, REQUIRE_FURTHER_ANALYSIS, 0.7, None, 0, 0, false, COMPLETED)
    case _ => Decision(t, DO_NOT_HEAL, 1.0, None, 0, 0, false, COMPLETED)
  }

  /** Append an event recorded in the given step. */
  function Log(s: AgentState, kind: EventKind, step: WorkflowStep): AgentState {
    s.(events := s.events + [Event(kind, step, None)])
  }

  /** Record an attempt with c and wait for its validation. */
  function Attempt(s: AgentState, c: Candidate): AgentState {
    var n := s.healingAttempts + 1;
    s.(step := HEALING_PENDING_VALIDATION,
       attempted := s.attempted + {c.selector},
       healingAttempts := n,
       recommendation := if s.recommendation.Some? then Some(s.recommendation.value.(selected := Some(c))) else None,
       events := s.events + [Event(HEALING_RECOMMENDATION_SENT, HEALING_PENDING_VALIDATION,
                                   Some(Sent(c.selector, c.confidence, n)))])
  }

  function Finished(s: AgentState): AgentState {
    Log(s.(step := COMPLETED, status := Completed), WORKFLOW_COMPLETED, COMPLETED)
  }

  function Stopped(s: AgentState): AgentState {
    s.(step := ABORTED, status := Aborted)
  }

  /** The state once candidates are ranked and the policy has decided. */
  function Decided(cfg: Config, s: AgentState, a: Answers): AgentState {
    var d := Evaluate(cfg.policy, a.analysis, a.recommendation.candidates, s.healingAttempts, s.retries, s.attempted,
                      a.history);
    Log(Log(Log(Log(
      s.(ranked := a.recommendation.candidates, recommendation := Some(a.recommendation), decision := Some(d)),
      CANDIDATES_GENERATED, GENERATING_CANDIDATES), CANDIDATES_RANKED, RANKING_CANDIDATES),
      RECOVERY_DECISION_CREATED, DECIDING_HEALING), HEALING_DECISION_CREATED, DECIDING_HEALING)
  }

  /** Act on a policy decision taken after the candidates were ranked. */
  function Routed(s: AgentState, d: Decision): AgentState {
    if d.selected.Some? then Attempt(s, d.selected.value)
    else if d.action == ABORT then Log(Stopped(s), WORKFLOW_ABORTED, ABORTED)
    else Finished(s)
  }

  /** A failure settled before any candidate is generated. */
  function SettledBy(known: AgentState, t: FailureType, action: RecoveryAction): AgentState {
    var decided := Log(known.(decision := Some(Early(t, action, known.healingAttempts, known.retries))),
                       RECOVERY_DECISION_CREATED, ANALYZING_FAILURE);
    if action == ABORT then Stopped(decided)
    else if action == RETRY then
      Log(decided.(step := EXECUTION_PENDING, retries := known.retries + 1), RETRY_INITIATED, RETRYING)
    else Finished(decided)
  }

  function FailureOutcome(cfg: Config, s: AgentState, a: Answers): AgentState {
    if s.context.None? then Stopped(s)
    else
      var t := a.analysis.failureType;
      var known := Log(s.(analysis := Some(a.analysis)), FAILURE_ANALYSIS_COMPLETED, ANALYZING_FAILURE);
      match PreCheck(cfg, t, s.healingAttempts, s.retries)
      case Some(action) => SettledBy(known, t, action)
      case None =>
        var decided := Decided(cfg, known, a);
        Routed(decided, decided.decision.value)
  }

  function ExecutionOutcome(cfg: Config, s: AgentState, result: ExecutionResult, a: Answers): Result<AgentState> {
    if s.step != EXECUTION_PENDING then Err(WrongStep)
    else if result.workflowId != s.workflowId then Err(WrongWorkflow)
    else
      var received := Log(s, EXECUTION_RESULT_RECEIVED, EXECUTION_PENDING);
      Ok(if result.success then Finished(received)
         else FailureOutcome(cfg, received.(context := result.context), a))
  }

  /** The state once the policy has decided how to go on after a failed attempt. */
  function Continued(cfg: Config, s: AgentState, history: History): AgentState {
    var d := EvaluateContinuation(cfg.policy, s.analysis, s.ranked, s.healingAttempts, s.attempted, history);
    Log(s.(decision := Some(d)), RECOVERY_DECISION_CREATED, HEALING_PENDING_VALIDATION)
  }

  /** Feedback taken down and stored. */
  function Heard(s: AgentState, f: Feedback): AgentState {
    Log(Log(s.(lastFeedback := Some(f)), HEALING_RESULT_RECEIVED, HEALING_PENDING_VALIDATION),
        HEALING_HISTORY_UPDATED, HEALING_PENDING_VALIDATION)
  }

  /** A failed attempt: the next candidate, or the end. */
  function AfterFailure(cfg: Config, s: AgentState, history: History): AgentState {
    var next := Continued(cfg, s, history);
    var d := next.decision.value;
    if d.selected.Some? then Attempt(next, d.selected.value) else Finished(next)
  }

  function HealingOutcome(cfg: Config, s: AgentState, f: Feedback, history: History): Result<AgentState> {
    if s.step != HEALING_PENDING_VALIDATION then Err(WrongStep)
    else if !Accepted(Healing(RecordOf(f))) then Err(InvalidRecord)
    else
      var heard := Heard(s, f);
      match f.validation
      case SUCCESS => Ok(Finished(heard))
      case FAILURE => Ok(AfterFailure(cfg, heard.(attempted := s.attempted + {f.attemptedSelector}), history))
      case _ => Ok(heard.(step := COMPLETED, status := Completed))
  }

  /** With a store behind the memory, which may be unavailable. */
  function StoredOutcome(cfg: Config, s: AgentState, f: Feedback, history: History, available: bool): Result<AgentState> {
    var r := HealingOutcome(cfg, s, f, history);
    if r.Ok? && !available then Err(StoreUnavailable) else r
  }

  /** What the memory's index takes in: the record of any feedback that is accepted, whether the store takes it or not. */
  function Remembered(cfg: Config, s: AgentState, f: Feedback, history: History): seq<HealingRecord> {
    if HealingOutcome(cfg, s, f, history).Ok? then [RecordOf(f)] else []
  }

  /** A new workflow once the planner has answered. */
  function Planned(id: string, ok: bool): AgentState {
    var s := Log(AgentState(id, EXECUTION_PENDING, Active, None, None, [], None, None, None, {}, 0, 0, []),
                 WORKFLOW_STARTED, PLANNING);
    if ok then Log(s, TEST_PLAN_GENERATED, PLANNING) else Log(Stopped(s), WORKFLOW_ABORTED, ABORTED)
  }

  // ---- The orchestrator object ----

  class AgentOrchestrator {
    const config: Config
    const hasPlanner: bool
    var workflows: map<string, AgentState>
    var memory: seq<HealingRecord>

    constructor (config: Config, hasPlanner: bool, memory: seq<HealingRecord>)
      ensures this.config == config && this.hasPlanner == hasPlanner
      ensures workflows == map[] && this.memory == memory
    {
      this.config, this.hasPlanner, workflows, this.memory := config, hasPlanner, map[], memory;
    }

    method StartPlanning(id: string, plannerSucceeds: bool) returns (r: Result<AgentState>)
      modifies this`workflows
      ensures r == if hasPlanner then Ok(Planned(id, plannerSucceeds)) else Err(NoPlanner)
      ensures workflows == if r.Ok? then old(workflows)[id := r.value] else old(workflows)
    {
      if !hasPlanner {
        return Err(NoPlanner);
      }
      var state := AgentState(id, PLANNING, Active, None, None, [], None, None, None, {}, 0, 0, []);
      state := AddEvent(state, WORKFLOW_STARTED);
      if plannerSucceeds {
        state := AddEvent(state, TEST_PLAN_GENERATED);
        state := Transition(state, EXECUTION_PENDING);
      } else {
        state := state.(status := Aborted);
        state := Transition(state, ABORTED);
        state := AddEvent(state, WORKFLOW_ABORTED);
      }
      workflows := workflows[id := state];
      return Ok(state);
    }

    /** No transition on any path is refused: the only errors are the two guards at the top. */
    method SubmitExecutionResult(s: AgentState, result: ExecutionResult, a: Answers) returns (r: Result<AgentState>)
      modifies this`workflows
      ensures r == ExecutionOutcome(config, s, result, a)
      ensures workflows == if r.Ok? then old(workflows)[s.workflowId := r.value] else old(workflows)
    {
      if s.step != EXECUTION_PENDING {
        return Err(WrongStep);
      }
      if result.workflowId != s.workflowId {
        return Err(WrongWorkflow);
      }
      var state := AddEvent(s, EXECUTION_RESULT_RECEIVED);
      if result.success {
        state := Transition(state, EXECUTION_SUCCESS);
        state := state.(status := Completed);
        state := Transition(state, COMPLETED);
        state := AddEvent(state, WORKFLOW_COMPLETED);
      } else {
        state := state.(context := result.context);
        state := Transition(state, FAILURE_DETECTED);
        state := RunFailureFlow(state, a);
      }
      workflows := workflows[state.workflowId := state];
      return Ok(state);
    }

    method RunFailureFlow(s: AgentState, a: Answers) returns (state: AgentState)
      requires s.step == FAILURE_DETECTED
      ensures state == FailureOutcome(config, s, a)
    {
      state := Transition(s, ANALYZING_FAILURE);
      if state.context == None {
        state := state.(status := Aborted);
        state := Transition(state, ABORTED);
        return;
      }
      state := state.(analysis := Some(a.analysis));
      state := AddEvent(state, FAILURE_ANALYSIS_COMPLETED);
      var settled;
      settled, state := TrySettle(state, a.analysis.failureType);
      if !settled {
        state := HealFromCandidates(state, a);
      }
    }

    /** The decisions taken before any candidate is generated. */
    method TrySettle(s: AgentState, t: FailureType) returns (settled: bool, state: AgentState)
      requires s.step == ANALYZING_FAILURE
      ensures settled <==> PreCheck(config, t, s.healingAttempts, s.retries).Some?
      ensures state == if settled then SettledBy(s, t, PreCheck(config, t, s.healingAttempts, s.retries).value) else s
    {
      state := s;
      if state.healingAttempts >= config.maxHealingAttempts {
        state := state.(decision := Some(Early(t, ABORT, state.healingAttempts, state.retries)), status := Aborted);
        state := AddEvent(state, RECOVERY_DECISION_CREATED);
        state := Transition(state, ABORTED);
        return true, state;
      }

      var p := PolicyFor(config.policy, t);
      if p.retryable && config.policy.allowRetry && state.retries < RetryLimit(config.policy, t) {
        state := state.(decision := Some(Early(t, RETRY, state.healingAttempts, state.retries)),
                        retries := state.retries + 1);
        state := AddEvent(state, RECOVERY_DECISION_CREATED);
        state := Transition(state, RETRYING);
        state := AddEvent(state, RETRY_INITIATED);
        state := Transition(state, EXECUTION_PENDING);
        return true, state;
      }

      if !p.healable {
        var action := if p.retryable then REQUIRE_FURTHER_ANALYSIS else DO_NOT_HEAL;
        state := state.(decision := Some(Early(t, action, state.healingAttempts, state.retries)), status := Completed);
        state := AddEvent(state, RECOVERY_DECISION_CREATED);
        state := Transition(state, COMPLETED);
        state := AddEvent(state, WORKFLOW_COMPLETED);
        return true, state;
      }
      settled := false;
    }

    /** The rest of the failure flow: candidates, policy decision and routing. */
    method HealFromCandidates(s: AgentState, a: Answers) returns (state: AgentState)
      requires s.step == ANALYZING_FAILURE
      ensures state == Routed(Decided(config, s, a), Decided(config, s, a).decision.value)
    {
      state := Transition(s, GENERATING_CANDIDATES);
      state := state.(ranked := a.recommendation.candidates);
      state := AddEvent(state, CANDIDATES_GENERATED);
      state := Transition(state, RANKING_CANDIDATES);
      state := AddEvent(state, CANDIDATES_RANKED);
      state := Transition(state, DECIDING_HEALING);
      var d := Evaluate(config.policy, a.analysis, a.recommendation.candidates, state.healingAttempts, state.retries,
                        state.attempted, a.history);
      EvaluateIsSafe(config.policy, a.analysis, a.recommendation.candidates, state.healingAttempts, state.retries,
                     state.attempted, a.history);
      state := state.(decision := Some(d), recommendation := Some(a.recommendation));
      state := AddEvent(state, RECOVERY_DECISION_CREATED);
      state := AddEvent(state, HEALING_DECISION_CREATED);
      state := Route(state, d);
    }

    /** Act on the policy's decision. */
    method Route(s: AgentState, d: Decision) returns (state: AgentState)
      requires s.step == DECIDING_HEALING && (d.action == TRY_HEALING <==> d.selected.Some?)
      ensures state == Routed(s, d)
    {
      state := s;
      if d.action == TRY_HEALING {
        // the source also handles a missing candidate here; there is always one
        state := SendRecommendation(state, d.selected.value);
      } else if d.action == ABORT {
        state := state.(status := Aborted);
        state := Transition(state, ABORTED);
        state := AddEvent(state, WORKFLOW_ABORTED);
      } else {
        state := state.(status := Completed);
        state := Transition(state, COMPLETED);
        state := AddEvent(state, WORKFLOW_COMPLETED);
      }
    }

    /** Track the attempt and hand the candidate over for validation. */
    method SendRecommendation(s: AgentState, c: Candidate) returns (state: AgentState)
      requires s.step == DECIDING_HEALING || s.step == HEALING_PENDING_VALIDATION
      ensures state == Attempt(s, c)
    {
      state := s.(attempted := s.attempted + {c.selector}, healingAttempts := s.healingAttempts + 1);
      if state.recommendation.Some? {
        state := state.(recommendation := Some(state.recommendation.value.(selected := Some(c))));
      }
      state := Transition(state, HEALING_PENDING_VALIDATION);
      state := AddSent(state, c);
    }

    /** `available`: whether a store behind the memory takes the record, too. */
    method SubmitHealingResult(s: AgentState, f: Feedback, history: History, available: bool)
      returns (r: Result<AgentState>)
      modifies this
      ensures r == StoredOutcome(config, s, f, history, available)
      ensures workflows == if r.Ok? then old(workflows)[s.workflowId := r.value] else old(workflows)
      ensures memory == old(memory) + Remembered(config, s, f, history)
    {
      if s.step != HEALING_PENDING_VALIDATION {
        return Err(WrongStep);
      }
      var state := AddEvent(s, HEALING_RESULT_RECEIVED);
      if !Accepted(Healing(RecordOf(f))) {
        return Err(InvalidRecord);  // the store refuses blank identifiers
      }
      memory := memory + [RecordOf(f)];
      if !available {
        return Err(StoreUnavailable);  // the record stays in the memory's index
      }
      state := AddEvent(state, HEALING_HISTORY_UPDATED);
      state := state.(lastFeedback := Some(f));
      if f.validation == SUCCESS {
        state := state.(status := Completed);
        state := Transition(state, HEALING_SUCCEEDED);
        state := Transition(state, COMPLETED);
        state := AddEvent(state, WORKFLOW_COMPLETED);
      } else if f.validation == FAILURE {
        state := state.(attempted := state.attempted + {f.attemptedSelector});
        state := TryNextCandidate(state, history);
      } else {
        state := state.(status := Completed);
        state := Transition(state, HEALING_FAILED);
        state := Transition(state, COMPLETED);
      }
      workflows := workflows[state.workflowId := state];
      return Ok(state);
    }

    method TryNextCandidate(s: AgentState, history: History) returns (state: AgentState)
      requires s.step == HEALING_PENDING_VALIDATION
      ensures state == AfterFailure(config, s, history)
    {
      var d := EvaluateContinuation(config.policy, s.analysis, s.ranked, s.healingAttempts, s.attempted, history);
      ContinuationIsSafe(config.policy, s.analysis, s.ranked, s.healingAttempts, s.attempted, history);
      state := s.(decision := Some(d));
      state := AddEvent(state, RECOVERY_DECISION_CREATED);
      if d.action == TRY_HEALING {
        // the source also handles a missing candidate here; there is always one
        state := SendRecommendation(state, d.selected.value);
      } else {
        state := state.(status := Completed);
        state := Transition(state, HEALING_FAILED);
        state := Transition(state, COMPLETED);
        state := AddEvent(state, WORKFLOW_COMPLETED);
      }
    }
  }
}
