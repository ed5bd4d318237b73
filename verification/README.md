# Verification of TestSphere-AI's stateful core

This project models the parts of TestSphere-AI that keep state over long runs or take numeric decisions from
it, and proves what they promise.  `dafny verify dfyconfig.toml` checks everything (Dafny 4.11).

| Part | Files | Modelled code |
|---|---|---|
| Recovery workflow | `RecoveryPolicy.dfy`, `Orchestrator.dfy`, `WorkflowOutcomes.dfy`, `WorkflowRuns.dfy` | the orchestrator's state machine, the recovery policy, whole runs of submissions |
| Shared store protocols | `RateLimit.dfy`, `StoreLimiter.dfy`, `WorkQueue.dfy` | sliding-window limiters in memory and in the store, the run queue with claims, heartbeats and reaping |
| Locator healing | `HealingScore.dfy`, `HealingSearch.dfy`, `Locators.dfy`, `StepRunner.dfy` | fingerprint score, two-stage search, locator generation and enrichment, the step loop with its searches |
| Healing memory | `MemoryStore.dfy`, `PersistentStore.dfy`, `HealingEvidence.dfy`, `PatternDetector.dfy` | indexes, write-through and replay, aggregation, pattern detection |
| Candidates and decisions | `Scoring.dfy`, `HealingDecision.dfy`, `LlmClient.dfy` | weighted scores and ranking, the recommendation, the retrying model client |
| Text and images | `Patcher.dfy`, `PythonCode.dfy`, `CookieFlags.dfy`, `LostEdits.dfy`, `Visual.dfy` | UTF-8 columns and edits of source text, the rewriting of `set_cookie` calls and what a trailing comment makes of it, the in-place pixel comparison |
| Shared | `Sequences.dfy`, `Rounding.dfy` | filters, stable sorting, Python's white space and `round` |

## How the source is modelled

- Objects that the source updates in place are classes (`AgentOrchestrator`, `RateLimiter`, `InMemoryStore`,
  `PersistentMemoryStore`, `Target`), loops are methods with invariants, buffers are arrays.  Each such method is
  tied to a specification function, and the lemmas are about that function.  Where such a function is a table or a
  formula, a lemma states it again over the fields and literal values of the source (`…ByField`, `…ByBytes`, `ActionOf`).
- Concurrent protocols are state machines: one store operation or clock reading per action, any sequence of
  actions.  `Exec` replays an action sequence, so every interleaving of any number of participants is covered.
- What the code asks of components outside the model is an arbitrary input: analyses, recommendations, evidence,
  the model provider's replies, what a locator resolves to, how an action in the browser ends, clock readings.
- A fuzzy text ratio is any function into 0..100 that gives equal texts 100, and the square root any function
  that is 0 at 0 and not negative elsewhere; the theorems hold for all of them.
- Floating point is modelled by exact reals; `round(x, n)` is modelled with ties to even.
- Text is a sequence of Unicode scalar values, and an optional text that the code only tests for truth is "".
- What Python reads of a file as code, comment or string is a lexer (`PythonCode`).  Of the grammar above it,
  `ast.parse` is any function with `CookieFlags.ReadsCalls`: it finds calls that close with a parenthesis of the code,
  and arguments that land in the code extend their call and no other, except behind a line continuation or a bare
  generator; the keywords that the call gains, with their values, are those read off the written arguments (`KeywordsIn`:
  a name, `=`, and a value up to the next comma).  Nothing is assumed of a text whose edit went into a comment: it may be read as anything, or not at all.
- Which characters are word characters (`\w`) is any predicate; the patterns for locators are modelled on top of it.

Assumptions: `update_if` is atomic; a user's limiter row exists and is empty at the start; nothing sets a run back
to `queued`; a store keeps its rows in id order; a record survives its trip through JSON.

## Findings

- The design table (docs/member1-architecture.md:1385) promises `ABORTED` when healing attempts run out.  The code
  records an `ABORT` decision but completes the workflow; it aborts a running workflow in one case only, a failed
  execution without failure context (`LimitEndsCompleted`, `LimitIsReached`, `AbortedOnlyWithoutContext`).
- The orchestrator's check before candidates and the policy disagree in one case: a failure type that is retryable
  and not healable while retries are switched off (`PreCheckAgrees` gives the exact condition).
- No transition the orchestrator asks for is ever refused, and a `TRY_HEALING` decision always carries a candidate,
  so the branches for a missing candidate never run.  After candidates are ranked, `RETRY` and `ABORT` cannot occur.
- State is passed in by the caller, and a run here is a chain of returned states.  Going back to an old state is not
  prevented: its feedback is accepted and its record stored as often as it is sent (`ReplayIsAccepted`).  Without
  anyone going back, the same happens while the store is unavailable: the feedback is refused, its record stays in the
  memory, and sending it again adds another (`ResentIsStoredAgain`).
- A reaper can turn a run that has just passed into an error: its compare-and-set guards the heartbeat, not the
  status (`FinishedRunCanBeReaped`; `ReapIsExact` states what it does guarantee).  A run whose last stamp is fresh
  whenever a reaper lists it is never touched, whatever the reapers' limits (`NeverReaped`).
- Clock readings reach the limiters in any order, because they are taken before the lock or the commit.  The window
  bound survives exactly those sequences in which no reading comes back near a start that an earlier reading already saw
  as 60 s old (`SafeIffNoReturn`); clock order is enough but not needed (`InOrderNeverReturns`), and every such return
  breaks the bound for some calls (`ReturnBreaksBound`).
- A `set_cookie` call with a comment behind its last argument cannot be completed: the new arguments, the parenthesis
  and the rest of its line become part of the comment.  If that line does not open as many parentheses as it closes, the
  next parse fails and the whole file stays unpatched (`UnevenIsRefused`, `CommentedIsRefused`).  If it does, the file may
  parse as another program, which the loop goes on to edit and saves, with a count that is too high
  (`MisreadIsAltered`, `SampleIsAltered`).  A line continuation or a bare generator there fails the parse.  In all other
  cases, and only then, the file is patched right (`RightIffExtensible`).
- The healing memory and its collection part company when an insert fails: the record is in the index, without a row,
  and the next reload drops it.  Rows that a clear could not delete come back with it (`ReloadChangesNothing`).
- Erasing an account does not always reach the running healer's memory: it is reloaded only if all erasures went through
  and this one found a memory row (`ErasedIsForgotten`).  So records of the owner stay in the index until the next restart
  when their insert had failed (`LostIsKept`), and when a later collection could not be erased, even if the erasure is
  repeated (`StoppedIsKept`); in no other case (`OnlyWhatSlippedIsKept`).
- Healing onto a look-alike is impossible for thresholds above 0.6, also over whole test runs, and possible at every
  threshold up to 0.6 (`NeverHealsOntoLookAlike`, `NoHealedLookAlike`, `LowThresholdHealsOntoLookAlike`).
- The minimum healing threshold does not bind the model evaluator: tied candidates scored below it are still put to
  the evaluator, and its confidence alone can recommend healing (`BelowMinimum`).  The comment at
  agents/healer/healing_decision.py:92-94 promises DO_NOT_HEAL below the minimum; the code answers
  REQUIRE_FURTHER_ANALYSIS.
- Per-pair evidence is capped at 20 records, so totals over pairs count each record once exactly when no pair has more
  (`HistoryConservesRecords`).  Beyond 100 records the two caps do not match, and attempts can exceed the healings they
  are attempts of (`AttemptsExceedHealings` says exactly when, `TwentyRounds` that it happens).
- A store limit of 0 means no limit, so `max_records = 0` replays everything.
- A crash in any step is reported under the id of the plan's first step (`StepRunner.Turn`).

## Model

| member | source | states |
|---|---|---|
| WorkflowRuns.RunsEnd | agents/orchestration/agent_orchestrator.py:247-446 | Over every run from a fresh workflow, the accepted submissions number exactly retries + attempts + whether execution is over - whether validation is pending, hence at most max_retries + 1 + the policy's max_healing_attempts. |
| WorkflowRuns.OnlyOneKindAccepted | agents/orchestration/agent_orchestrator.py:277-291 | After any run, an execution result is accepted iff the step is EXECUTION_PENDING and the workflow id matches, feedback iff validation is pending and its record is storable; finished workflows accept nothing. |
| WorkflowRuns.RunAccounting | agents/orchestration/agent_orchestrator.py:331-446 | In every reachable state memory gained exactly the feedback records in order, attempts equal feedbacks plus one while pending, budgets hold, audit events count each submission, retry and recommendation, and status matches step. |
| WorkflowRuns.FeedbackIsRemembered | agents/healer/healing_feedback.py:186-233 | Accepted feedback adds one record, whose ids, selectors, confidence and time are the feedback's own and whose verdict is true for SUCCESS, false for FAILURE and none for ERROR and SKIPPED. |
| WorkflowRuns.RunRemembersVerdicts | agents/healer/healing_feedback.py:216-233 | Over every run the memory gains as many validated records as SUCCESS feedbacks were submitted, as many rejected as FAILURE ones, and as many open as the others. |
| WorkflowRuns.RecommendationsAdvance | agents/orchestration/agent_orchestrator.py:895-1002 | The recommendations of a run are pairwise different selectors at strictly increasing positions of the ranked list, with never increasing confidence when it is sorted; the pending one is the last sent. |
| WorkflowRuns.AbortedOnlyWithoutContext | agents/orchestration/agent_orchestrator.py:488-499 | A run ends ABORTED iff its last submission is a failed execution without failure context. |
| WorkflowRuns.LimitEndsCompleted | agents/orchestration/agent_orchestrator.py:988-1000 | A failed attempt at the limit records an ABORT decision and still completes the workflow. |
| WorkflowRuns.LimitIsReached | agents/orchestration/agent_orchestrator.py:988-1000 | That end is reachable: a run of a failed execution and a failed healing with both limits one. |
| WorkflowRuns.ReplayIsAccepted | agents/orchestration/agent_orchestrator.py:331-384 | Sending the same feedback on the same pending state again and again is accepted, and stores its record, every time. |
| WorkflowRuns.ResentIsStoredAgain | agents/orchestration/agent_orchestrator.py:360-380 | While the store is unavailable feedback is answered with an error and stays acceptable, yet each time its record enters the memory's index. |
| WorkflowRuns.PreCheckAgrees | agents/orchestration/agent_orchestrator.py:524-697 | Wherever a run can be, the early check never aborts, an early decision equals the policy's for any candidates iff not (retryable, not healable, retries off), and passing it leaves the policy neither RETRY nor ABORT. |
| WorkflowRuns.PreCheckAgreesWithEqualLimits | agents/orchestration/recovery_policy.py:425-545 | The same agreement for any counters when the two attempt limits are equal. |
| WorkflowRuns.RunInvariant | agents/orchestration/agent_orchestrator.py:247-446 | The invariant behind these results (step, accounts, trail, pending recommendation) holds after every run. |
| WorkflowRuns.SubmitKeepsInvariant | agents/orchestration/agent_orchestrator.py:247-446 | Each accepted submission keeps the invariant, adds its record to memory iff it is feedback, and aborts iff it lacks failure context. |
| WorkflowRuns.ExecutionKeepsInvariant | agents/orchestration/agent_orchestrator.py:291-329 | An accepted execution result keeps the invariant with one more execution. |
| WorkflowRuns.HealingKeepsInvariant | agents/orchestration/agent_orchestrator.py:360-446 | Accepted feedback keeps the invariant with one more feedback and never aborts. |
| WorkflowRuns.HealingFlowKeepsInvariant | agents/orchestration/agent_orchestrator.py:699-889 | Once candidates are asked for, the workflow ends pending with the first eligible candidate or completed, never aborted. |
| WorkflowRuns.SettledKeepsInvariant | agents/orchestration/agent_orchestrator.py:567-697 | A failure settled before candidates is retried with one more retry, or completes the workflow. |
| WorkflowRuns.ContinuationKeepsInvariant | agents/orchestration/agent_orchestrator.py:895-1002 | After a failed attempt the next eligible candidate is tried and the trail grows, or the workflow completes. |
| WorkflowRuns.TrailExtends | agents/orchestration/recovery_policy.py:688-723 | Recommending the first candidate still eligible extends the trail strictly forward, however many selectors were ruled out in between. |
| WorkflowOutcomes.ResultRefused | agents/orchestration/agent_orchestrator.py:277-291 | Outside EXECUTION_PENDING a result is refused for the step, within it for another workflow's id. |
| WorkflowOutcomes.RunPassed | agents/orchestration/agent_orchestrator.py:291-314 | A passed run completes the workflow with exactly two events and changes no counter. |
| WorkflowOutcomes.ContextMissing | agents/orchestration/agent_orchestrator.py:488-499 | A failed run without context aborts it, and nothing else changes. |
| WorkflowOutcomes.AttemptsUsedUp | agents/orchestration/agent_orchestrator.py:567-697 | With the attempts used up, a failed run records an ABORT decision and ends in ABORTED: every field and event. |
| WorkflowOutcomes.RunRetried | agents/orchestration/agent_orchestrator.py:567-697 | With a retry left for its type, it goes back to EXECUTION_PENDING with one more retry and a RETRY decision: every field and event. |
| WorkflowOutcomes.RunNotHealed | agents/orchestration/agent_orchestrator.py:567-697 | A type that is not healed completes the workflow, with further analysis required if the type passes by itself and DO_NOT_HEAL otherwise: every field and event. |
| WorkflowOutcomes.RunHealed | agents/orchestration/agent_orchestrator.py:699-889 | A type that is healed: the policy's candidate is sent as the next attempt, with its selector, confidence and number, and ruled out; without one the workflow completes, or aborts at the policy's limit: every field and event. |
| WorkflowOutcomes.FeedbackRefused | agents/orchestration/agent_orchestrator.py:349-384 | Outside HEALING_PENDING_VALIDATION feedback is refused for the step, within it for a blank id or selector. |
| WorkflowOutcomes.AttemptJudged | agents/orchestration/agent_orchestrator.py:385-446 | SUCCESS, ERROR and SKIPPED complete the workflow; only SUCCESS leaves a closing event. |
| WorkflowOutcomes.AttemptFailed | agents/orchestration/agent_orchestrator.py:895-1002 | FAILURE rules the attempted selector out and sends the policy's next candidate as one more attempt, or completes the workflow: every field and event. |
| WorkflowOutcomes.NewWorkflow | agents/orchestration/agent_orchestrator.py:162-245 | A new workflow is empty but for two events, pending or aborted as the planner answers. |
| Orchestrator.AgentOrchestrator.StartPlanning | agents/orchestration/agent_orchestrator.py:162-245 | A new workflow waits for execution or, when planning fails, is aborted; it is the only one touched. |
| Orchestrator.AgentOrchestrator.SubmitExecutionResult | agents/orchestration/agent_orchestrator.py:247-329 | The step by step rewriting yields the specified outcome, every transition being in the table; an error changes nothing. |
| Orchestrator.AgentOrchestrator.RunFailureFlow | agents/orchestration/agent_orchestrator.py:477-697 | The failure flow yields the specified state on every path: no context, settled early, or through candidates. |
| Orchestrator.AgentOrchestrator.HealFromCandidates | agents/orchestration/agent_orchestrator.py:699-889 | Ranking and policy decision yield the specified state, every transition being in the table. |
| Orchestrator.AgentOrchestrator.TrySettle | agents/orchestration/agent_orchestrator.py:524-697 | A failure is settled before candidates exactly when the early check decides, with the specified state, and left alone otherwise. |
| Orchestrator.AgentOrchestrator.Route | agents/orchestration/agent_orchestrator.py:801-889 | A decision is acted on as specified: attempt, abort or completion. |
| Orchestrator.AgentOrchestrator.SubmitHealingResult | agents/orchestration/agent_orchestrator.py:331-446 | Accepted feedback enters the memory once, before the state moves on; a refused record changes nothing; with the store unavailable the record stays in the memory and state and table do not change. |
| Orchestrator.AgentOrchestrator.TryNextCandidate | agents/orchestration/agent_orchestrator.py:895-1002 | The next attempt or completion after a failed one, as the policy decides. |
| RecoveryPolicy.EvaluateIsSafe | agents/orchestration/recovery_policy.py:368-580 | A decision carries a candidate iff it is TRY_HEALING, and then attempts remain, the type is healable with no retry due, and the candidate is the first eligible one, clearly ahead and confident enough. |
| RecoveryPolicy.ContinuationIsSafe | agents/orchestration/recovery_policy.py:583-685 | The same for the decision after a failed attempt. |
| RecoveryPolicy.ActionOf | agents/orchestration/recovery_policy.py:183-545 | ABORT iff the attempts are used up; else RETRY iff the type passes by itself and retries are left, 2 unless configured; else a type that is not healed gets further analysis or DO_NOT_HEAL.  Default types by name, confidences and next states by number and name. |
| RecoveryPolicy.HealsIff | agents/orchestration/recovery_policy.py:727-917 | For a type that is healed: TRY_HEALING iff some candidate is the first triable one, ahead of the next triable one by more than the margin and confident enough, and then it is selected; further analysis iff there are triable ones but no clear first; else DO_NOT_HEAL. |
| RecoveryPolicy.ContinuesIff | agents/orchestration/recovery_policy.py:583-685 | After a failed attempt: TRY_HEALING under the same conditions, ABORT iff attempts or triable candidates are used up. |
| RecoveryPolicy.AdjustedByHistory | agents/orchestration/recovery_policy.py:752-792 | History adds successes / attempts times the weight, up to 1, and takes 0.2 off, down to 0, from three attempts on with less than three in ten successful; without attempts, target or analysis it changes nothing. |
| RecoveryPolicy.LeadIsClear | agents/orchestration/recovery_policy.py:797-820 | Comparing the two first eligible candidates says exactly whether the first triable one is clear of the next. |
| RecoveryPolicy.EligibleHead | agents/orchestration/recovery_policy.py:688-723 | The head of the eligible list is the first candidate of the ranking that is untried and above the minimum score. |
| RecoveryPolicy.FilterEligibleCandidates | agents/orchestration/recovery_policy.py:688-723 | The filter loop keeps exactly the eligible candidates in order, and its two skip counters account for all the others. |
| RateLimit.RateLimiter.LimitRuns | backend/ratelimit.py:63-79 | One call changes only its user's deque, to the pruned one with the start appended iff admitted; a budget of at most 0 admits. |
| RateLimit.DequeRefinesLog | backend/ratelimit.py:71-78 | For calls in lock order the pruned deque is exactly the admitted starts younger than 60 s of a log that never forgets. |
| RateLimit.AnswerMatchesLog | backend/ratelimit.py:74-78 | A call is admitted iff fewer than budget admitted starts are younger than 60 s; a refusal names the wait for the oldest of them. |
| RateLimit.AnswerPerMinute | backend/ratelimit.py:71-79 | In clock order a call is admitted, and kept, iff fewer than budget admitted starts are under 60 seconds old; else it is told the time until the earliest of them is a minute old, rounded up past it. |
| RateLimit.AdmittedPerMinute | backend/ratelimit.py:71-78 | In clock order no 60 seconds hold more than budget admitted starts. |
| RateLimit.AdmittedWindowBound | backend/ratelimit.py:71-78 | When no reading comes back near an expired start, no half-open 60 s window holds more than budget admitted starts. |
| RateLimit.SafeIffNoReturn | backend/ratelimit.py:71-78 | The bound holds for every budget, window and way of calling with these readings in this order iff no reading lies less than 60 s from a start that an earlier reading saw as 60 s old. |
| RateLimit.InOrderNeverReturns | backend/ratelimit.py:71-78 | Readings in clock order never come back, so the bound holds for them. |
| RateLimit.RetryAfterIsSufficient | backend/ratelimit.py:77 | Retry-After lies in 1..61; with no admission in between a retry after that many seconds is admitted, and one more than a second earlier is not. |
| RateLimit.ReturnBreaksBound | backend/ratelimit.py:71-78 | For every such return of z to x past y, the calls x, x, y, z put three starts into one window of budget two. |
| RateLimit.WindowBound | backend/ratelimit.py:63-79 | A log in any order whose every entry found fewer than budget entries within 60 s on either side has at most budget entries in every window. |
| StoreLimiter.NoLostUpdate | backend/ratelimit.py:49-60 | Under any interleaving the row has at most budget entries and is exactly the committed starts that no later committer saw as 60 s old. |
| StoreLimiter.AdmittedOnce | backend/ratelimit.py:58-59 | A call is admitted iff exactly one commit is its own, and that commit wrote its clock reading. |
| StoreLimiter.BoundedAttempts | backend/ratelimit.py:52-60 | A call makes at most five compare-and-sets; refused for contention, at least five commits happened since it began. |
| StoreLimiter.FullRefusalIsTruthful | backend/ratelimit.py:55-57 | A refusal for the budget means the row read held exactly budget young starts, and fewer after the announced seconds. |
| StoreLimiter.QuietTurnEnds | backend/ratelimit.py:52-60 | A turn that nothing interrupts ends the call: admitted with the row cut to the last minute plus its own start, or, iff that is full, refused with the time until the earliest is a minute old and nothing else changed. |
| StoreLimiter.CallCanEnd | backend/ratelimit.py:49-60 | After any run a new call can end by four steps of its own, admitted iff there is room in the last minute. |
| StoreLimiter.OvertakenTurn | backend/ratelimit.py:52-60 | A call whose row was changed under it tries again, gives up after five, and no step touches another call. |
| StoreLimiter.SharedWindowBound | backend/ratelimit.py:49-60 | When no committed reading comes back near an expired one, all instances together admit at most budget starts in any 60 s window. |
| StoreLimiter.SharedPerMinute | backend/ratelimit.py:49-60 | With commits in clock order all instances together admit at most budget starts in any 60 seconds. |
| StoreLimiter.StepKeepsInvariant | backend/ratelimit.py:49-60 | Every single store operation keeps row, calls and commit history consistent. |
| StoreLimiter.SurvivingExtend | backend/ratelimit.py:55-58 | Appending a committer's start keeps exactly the survivors that are young for it. |
| WorkQueue.ClaimedAtMostOnce | backend/worker.py:67-74 | Under any interleaving of workers, heartbeats, reapers, deletions and cancellations no run is claimed twice. |
| WorkQueue.OldestFirst | backend/worker.py:69-73 | When a worker claims a run it was queued, gets the claim's stamps, and every older run in the store at the snapshot has left the queue. |
| WorkQueue.QuietClaim | backend/worker.py:67-74 | A worker that finds queued runs and is not interrupted claims the oldest of them, running, its own, with one stamp as start and heartbeat. |
| WorkQueue.QuietEmptyScan | backend/worker.py:67-74 | With nothing queued a scan touches nothing. |
| WorkQueue.BeatsItsRun | backend/worker.py:98-104 | A beat stamps the heartbeat of the run its worker executes, if it is there, and nothing else. |
| WorkQueue.EmptyScanMeansNothingQueued | backend/worker.py:67-74 | A claim that comes back empty means every run in the store at its snapshot has left the queue. |
| WorkQueue.ReapIsExact | backend/worker.py:81-89 | A reaper with any limit marks a row error iff it was stale or unreadable when read and its stored heartbeat is unchanged; a readable stored heartbeat is then at least that limit old. |
| WorkQueue.QuietSweep | backend/worker.py:77-89 | A sweep that is not interrupted marks as errors exactly the running runs whose heartbeat, or else start, is at least the limit old, or that have neither. |
| WorkQueue.NeverReaped | backend/worker.py:77-104 | Under any interleaving, a run whose last stamp was younger than the reaper's limit at each listing of the running runs is left untouched by every reaper's turn. |
| WorkQueue.FinishedRunCanBeReaped | backend/worker.py:86-87 | For every limit an interleaving that turns a passed run into an error. |
| WorkQueue.StepKeepsInvariant | backend/worker.py:67-104 | Every operation keeps claims unique, scans ordered and everything scanned past out of the queue. |
| WorkerPolling.NextPollIsBackoff | backend/worker.py:93-95 | The doubling rule equals min(max(2^k poll, poll), max(idle, poll)) after k empty polls, for every configuration, negative ones included. |
| WorkerPolling.Work | backend/worker.py:122-145 | For any settings, each empty turn waits the back-off for the empty turns just before it, and the turns that sweep are exactly the first and each one REAP_SECONDS or more after the last noted sweep. |
| WorkerPolling.SweepsAreSpaced | backend/worker.py:131-134 | Sweeps are in turn order, each read at least REAP_SECONDS after the one before was noted. |
| WorkerPolling.SweepsCoverTurns | backend/worker.py:131-134 | Every turn sweeps, or comes less than REAP_SECONDS after a sweep of an earlier turn. |
| MemoryStore.InMemoryStore.StoreExecution | agents/memory/in_memory_store.py:45-54 | An accepted execution extends the log and the indexes stay its fold; a blank identifier is refused and changes nothing. |
| MemoryStore.InMemoryStore.StoreElement | agents/memory/in_memory_store.py:81-87 | The same for elements. |
| MemoryStore.InMemoryStore.StoreHealingRecord | agents/memory/in_memory_store.py:133-140 | The same for healing records. |
| MemoryStore.InMemoryStore.Clear | agents/memory/in_memory_store.py:197-201 | Clearing empties log and indexes. |
| MemoryStore.InMemoryStore.GetElementBySelector | agents/memory/in_memory_store.py:97-111 | The loops find the first of the latest matching elements, element ids in order of first storage. |
| MemoryStore.LatestElementIsLatest | agents/memory/in_memory_store.py:97-111 | One is found iff some stored element matches selector and page; it matches, and no matching one was seen later. |
| MemoryStore.ElementHistoryFromLog | agents/memory/in_memory_store.py:89-95 | The element history is the stable newest-first sort of exactly the stored snapshots of the element. |
| MemoryStore.LatestSuccessIsFirstPassed | agents/memory/in_memory_store.py:68-77 | The latest success is the first PASSED entry of the newest-first history, ties in insertion order. |
| MemoryStore.LatestSuccessByField | agents/memory/in_memory_store.py:68-77 | The latest success is a stored PASSED run of the test with no newer one; none iff there is none. |
| MemoryStore.FailuresAreFilteredHistory | agents/memory/in_memory_store.py:115-129 | The failure history is the first failures of the full history. |
| MemoryStore.FailuresByField | agents/memory/in_memory_store.py:115-129 | The failures are the stored runs of the test with FAILED or ERROR, newest time stamp first; what a limit cuts is no newer than what it keeps. |
| MemoryStore.ReplacementsAreFilteredHistory | agents/memory/in_memory_store.py:142-166 | The history of a pair is the first entries of the selector's history with that replacement. |
| MemoryStore.ReplacementsByField | agents/memory/in_memory_store.py:153-166 | The healings of a pair are the stored records with these two selectors, newest first; what a limit cuts is no newer than what it keeps. |
| MemoryStore.HealingsByField | agents/memory/in_memory_store.py:142-151 | The same for all healings of a selector. |
| MemoryStore.TestContextFromHistory | agents/memory/in_memory_store.py:170-193 | Every field of the context is a reading of the one history, counts included. |
| MemoryStore.CountsByField | agents/memory/in_memory_store.py:170-193 | The counts of a test's context are the numbers of its runs with PASSED, and with FAILED or ERROR. |
| MemoryRecords.FoldLookup | agents/memory/in_memory_store.py:45-54 | Each index entry is the log's records of that key in order. |
| PersistentStore.PersistentMemoryStore.constructor | agents/memory/persistent_store.py:66-70 | A new store holds the replay of the newest rows. |
| PersistentStore.PersistentMemoryStore.StoreExecution | agents/memory/persistent_store.py:74-76 | A refused record changes nothing; an accepted one enters the index, and the collection iff the insert succeeds, else the error is raised with the index changed. |
| PersistentStore.PersistentMemoryStore.StoreElement | agents/memory/persistent_store.py:78-80 | The same for elements. |
| PersistentStore.PersistentMemoryStore.StoreHealingRecord | agents/memory/persistent_store.py:82-84 | The same for healing records. |
| PersistentStore.PersistentMemoryStore.Clear | agents/memory/persistent_store.py:86-89 | Clearing empties the index and deletes the rows of known kinds, except those a failure left. |
| PersistentStore.ClearedByRow | agents/memory/persistent_store.py:86-100 | A clear leaves exactly the rows of unknown kinds and those it could not delete, in order, and an empty index. |
| PersistentStore.PersistentMemoryStore.Reload | agents/memory/persistent_store.py:91-95 | A reload holds the replay of the newest remaining rows, whatever was erased, or nothing when they cannot be read. |
| PersistentStore.PersistentMemoryStore.EraseAccount | backend/api/me.py:204-209 | The owner's rows go, up to where the erasure stops; the index is reloaded iff the erasure was completed and found a row, and is left alone otherwise. |
| PersistentStore.ErasedByRow | backend/orchestration/orchestrator.py:243-248 | An erasure leaves exactly the rows of others and of nobody and those it did not get to, in order. |
| PersistentStore.ErasedIsForgotten | backend/api/me.py:204-209 | After an erasure the index holds a record the owner stored iff it did before and there was no reload; without one it keeps all it had. |
| PersistentStore.ErasedIsBacked | backend/orchestration/orchestrator.py:243-248 | After an erasure that deleted the owner's rows, every record in the index has a row, of another owner or of none, iff the index was reloaded or that was so before. |
| PersistentStore.OnlyWhatSlippedIsKept | backend/api/me.py:204-209 | Over any run of stores, clears, erasures and restarts, a completed erasure leaves a record of the owner only if it found no row, and since the index was last built an insert of the owner's failed or an erasure of the owner stopped. |
| PersistentStore.WhoStoredWhat | agents/memory/persistent_store.py:74-119 | Over any run of stores, clears, erasures and restarts, each record in the index was stored by the owner it is put down to. |
| PersistentStore.LostIsKept | backend/api/me.py:206 | After any run, an owner without rows whose next insert fails is not forgotten by the erasure that follows. |
| PersistentStore.StoppedIsKept | backend/api/me.py:204-206 | After any run, an erasure that stopped behind the memory rows leaves the owner's records in the index, and so does its repetition. |
| PersistentStore.PersistentMemoryStore.Load | agents/memory/persistent_store.py:102-119 | The replay loop stores the readable accepted records oldest first and skips the others. |
| PersistentStore.LoadedByRow | agents/memory/persistent_store.py:102-119 | A reload holds exactly the accepted records of the newest max rows, of all for 0, in order, each once. |
| PersistentStore.ReloadChangesNothing | agents/memory/persistent_store.py:74-119 | After any operations with at most max_records rows, a reload holds the rows left by clears, then the entries kept; with nothing left it changes nothing iff no insert of an accepted record failed since the last clear, and with none failed iff nothing was left. |
| PersistentStore.ReloadForgetsExactlyTheOldest | agents/memory/persistent_store.py:102-119 | Beyond max_records a reload also drops exactly the entries of the rows no longer read, and with no failure changes nothing iff they hold none. |
| PersistentStore.RowsHold | agents/memory/persistent_store.py:74-100 | Over any operations the rows past the oldest few are those left by clears followed by the rows of what the index kept, and the index holds that and what was lost. |
| HealingEvidence.StatsConserveRecords | agents/memory/healing_evidence.py:167-220 | Successes, failures and inconclusive add up to the attempts, which are the pair's records up to 20; rates and mean lie in 0..1; the last use is the newest record's; the history score is the success rate. |
| HealingEvidence.StatsByField | agents/memory/healing_evidence.py:167-220 | The statistics of a pair count, over its newest 20 records, the verdicts true, false and none; the mean confidence is right to four places, the last use the newest time, the history score successes / attempts. |
| HealingEvidence.LastSuccessByField | agents/memory/healing_evidence.py:277-300 | The last successful replacement is that of the newest validated record among the newest 100, none iff there is none. |
| HealingEvidence.HistoryConservesRecords | agents/memory/healing_evidence.py:222-275 | For at most 100 records, attempts over the pairs equal the records iff no pair exceeds 20, and then the totals count every record once. |
| HealingEvidence.TotalsByField | agents/memory/healing_evidence.py:222-275 | With at most 100 records and 20 of each pair the totals are the numbers of validated and of rejected records. |
| HealingEvidence.AttemptsExceedHealings | agents/memory/healing_evidence.py:222-275 | For any number of records the healings are the newest 100 and the attempts the records of each replacement among them up to 20; attempts exceed healings iff there are more than 100 records and these capped counts add up to more than 100. |
| HealingEvidence.TwentyRounds | agents/memory/healing_evidence.py:222-275 | A history of 20 or more rounds of six replacements gives 100 healings and at least 120 attempts. |
| HealingEvidence.GetSelectorHistory | agents/memory/healing_evidence.py:222-275 | The grouping and summing loops give the statistics of each replacement, best success rate first, with totals over exactly those. |
| HealingEvidence.GroupByReplacement | agents/memory/healing_evidence.py:244-250 | The grouping loop's groups are the records of each replacement, keys in order of first appearance. |
| HealingEvidence.PartitionSum | agents/memory/healing_evidence.py:244-261 | Counting a verdict per group and adding up counts it over all records. |
| PatternDetector.DetectSelectorChain | agents/memory/pattern_detector.py:125-188 | The chain found has no repeats, follows the last validated replacement, stops only at none or a repeat, is the only such chain, and is reported iff it has at least two hops. |
| PatternDetector.Walk | agents/memory/pattern_detector.py:145-169 | The `while True` loop ends, by a measure over the selectors ever proposed, and what it walked is a chain. |
| PatternDetector.ChainUnique | agents/memory/pattern_detector.py:145-169 | A store determines the chain from a selector. |
| PatternDetector.ChainByHops | agents/memory/pattern_detector.py:171-188 | A chain is reported from two replacements on, with its selectors and their number, at a fifth for each and 1 at most. |
| PatternDetector.ReportGroups | agents/memory/pattern_detector.py:217-239 | The reporting loop gives one pattern per group with enough verdicts, in group order. |
| PatternDetector.DetectReliableReplacements | agents/memory/pattern_detector.py:190-239 | One pattern for each replacement validated at least twice among the newest 100 records. |
| PatternDetector.ReliableByField | agents/memory/pattern_detector.py:190-239 | The reliable replacements are exactly those that at least two records propose and validated, each with their number and its share to four places. |
| PatternDetector.DetectUnreliableReplacements | agents/memory/pattern_detector.py:241-290 | One pattern for each replacement rejected at least twice among the newest 100 records. |
| PatternDetector.UnreliableByField | agents/memory/pattern_detector.py:241-290 | The unreliable ones are exactly those that at least two records propose and rejected, each with their number and the share of the others. |
| PatternDetector.SignalsConsistent | agents/memory/pattern_detector.py:219-288 | For one group the reliable signal never exceeds the unreliable one, both in 0..1, and they meet when nothing was inconclusive. |
| Utf8.RoundTrip | security/patcher.py:325-327 | Decoding an encoded text gives it back. |
| Utf8.DecodePrefix | security/patcher.py:325-327 | Decoding any cut of an encoding, ignoring errors, gives exactly the characters that fit whole. |
| Utf8.ColIsLastBoundary | security/patcher.py:325-327 | A byte column is mapped to the last character boundary not after it. |
| Utf8.ColRecovers | security/patcher.py:325-327 | The byte column of a character is mapped to that character's index. |
| Patcher.OffsetRecovers | security/patcher.py:317-322 | In any text, the offset computed from a character's line and byte column is the character's index. |
| Patcher.ReplaceNodeIsExact | security/patcher.py:317-322 | Replacing a node gives the text before it, the replacement and the text after it. |
| Patcher.ReplaceNodeUndone | security/patcher.py:317-322 | Putting the old text over the replacement restores the file. |
| Patcher.JoinLines | security/patcher.py:248-250 | Joining the split lines gives the text back. |
| Patcher.LinesJoin | security/patcher.py:248-250 | Splitting joined lines that hold no break gives the lines back. |
| Patcher.InsertUndone | security/patcher.py:248-250 | The inserted lines stand after the given line (or the end), and deleting them restores the text. |
| PythonCode.ScanAppend | security/patcher.py:330-352 | Reading a text piece by piece gives the state and the code of reading it whole. |
| PythonCode.ShortStringRead | security/patcher.py:330-352 | A string in single or double quotes, with any escapes, is read as string up to its closing quote, and code goes on. |
| PythonCode.LongStringRead | security/patcher.py:330-352 | So is one in triple quotes, with breaks, escapes and up to two quotes in a row. |
| PythonCode.CommentRead | security/patcher.py:330-352 | A comment is read as one up to the end of its line. |
| CallArguments.AddArgumentsKeepsText | security/patcher.py:348-351 | Adding arguments drops only white space before the parenthesis and separates them by a comma exactly where one is needed. |
| CallArguments.LandsInCode | security/patcher.py:348-351 | The new arguments and the parenthesis behind them are read as code, and the rest of the file as before, iff no comment stands directly before the parenthesis; otherwise they are read as comment. |
| CallArguments.OthersKeep | security/patcher.py:348-351 | An edit that lands moves every other call's parenthesis as computed and changes neither whether a comment nor whether a continuation stands before it. |
| CallArguments.ItselfEnds | security/patcher.py:348-351 | After an edit that lands, the call ends in code again, behind neither comment nor continuation. |
| CallArguments.LinesAreJoined | security/patcher.py:348-351 | No edit adds a line, and one that goes into a comment joins two, which is why the loop ends. |
| CallArguments.MarksAfterEdit | security/patcher.py:348-351 | An edit keeps the reading of every closing parenthesis, unless it goes into a comment; then all up to its own are kept and that one is lost. |
| CallArguments.LostLineBalances | security/patcher.py:348-351 | After an edit into a comment a balanced file still balances iff the rest of the closing line opens as many parentheses as it closes. |
| CookieFlags.PatchCookies | security/patcher.py:330-352 | The rewriting loop ends on every file and gives what its specification says, going on with whatever an edited text is read as; the outcome is right iff every matching call that lacks a flag takes more arguments, and otherwise refused or altered. |
| CookieFlags.RightIffExtensible | security/patcher.py:330-352 | The file comes out right - every matching call completed with its flags and their values, counted once, no other changed, every parenthesis read as before - iff every matching call that lacks a flag takes more arguments; in every other case it is refused, or saved with a parenthesis of its code lost in a comment. |
| CookieFlags.RightWritesFlags | security/patcher.py:336-352 | After a right patch every matching call reads httponly as True, samesite as "lax" and, when secure holds, secure as True where it did not set them itself, and every other keyword as before; no other call changes. |
| CookieFlags.BareCallIsWritten | security/patcher.py:338-345 | A call without keywords gains exactly the text httponly=True, secure=True, samesite="lax", without the middle one when secure does not hold. |
| CookieFlags.ArgumentsRead | security/patcher.py:338-345 | Reading the written arguments as names, `=` and values gives exactly the missing flags with their values. |
| CookieFlags.RefusedOrAltered | security/patcher.py:330-352 | What decides is the first text on which a call that takes no more arguments is edited: refused if no comment trails there or the edited text does not parse, altered if it parses and all its lacking calls take more arguments. |
| CookieFlags.CompletedLacksNothing | security/patcher.py:340-345 | A completed call lacks nothing, keeps what it had with its values, gains flags only, and differs iff it lacked one. |
| CookieFlags.EditKeepsExtensible | security/patcher.py:346-352 | An edit that lands leaves every call of the file, the edited one included, as extensible as it was. |
| CookieFlags.TurnCompletesOne | security/patcher.py:333-352 | One turn that lands completes one call, leaves the others as they were, and leaves one less to complete. |
| LostEdits.LostEditIsRefused | security/patcher.py:635-643 | A parser that refuses unbalanced code refuses a text whose edit went into a comment on a line that does not balance. |
| LostEdits.UnevenIsRefused | security/patcher.py:635-643 | With such a parser a file is refused whenever the loop gets stuck at a comment on a line that does not balance. |
| LostEdits.CommentedIsRefused | security/patcher.py:635-643 | So every file of one call with a comment before its parenthesis on the last line is refused. |
| LostEdits.MisreadIsAltered | security/patcher.py:633-643 | For every parser: if the file still parses after an edit into a comment, with its one call ending further on, it is saved as another program, with two edits counted for one call. |
| LostEdits.SampleIsAltered | security/patcher.py:633-643 | For every text of a given shape there is a parser that refuses unbalanced code and with which that happens. |
| LostEdits.SampleBalances | security/patcher.py:348-351 | Such a text balances when the code before its comment opens two parentheses more than it closes. |
| LostEdits.TupleOpensTwo | security/patcher.py:348-351 | As any code does that holds two open parentheses and then a key in quotes. |
| HealingScore.AttributeSignal | engine/healer.py:302-323 | The two checking loops give the matched fraction of the stored element's attributes, classes counting as one. |
| HealingScore.AttributesByField | engine/healer.py:302-323 | The attribute signal is the share of the stored element's values, among five fields and six attributes by name, that the live one has; the class lists count as one more, by common classes over all; one half with nothing to compare. |
| HealingScore.TextByRatio | engine/healer.py:326-331 | The text signal is 1 without text on either side, 0 with text on one, and else a hundredth of the ratio. |
| HealingScore.PositionFades | engine/healer.py:334-341 | A box moved by (dx, dy) loses the distance over 300, down to 0; growing around its centre costs nothing. |
| HealingScore.StructureByPosition | engine/healer.py:344-355 | The structure signal is the share of positions of the longer chain with the same ancestor, and whether the sibling index is the same, at equal weight; one of them alone, or one half, where they are not known. |
| HealingScore.InputByFields | engine/healer.py:279-283 | Two elements are of one input kind iff neither is an input, or both are, of the same type in lower case or of two of the eight typed-text types. |
| HealingScore.LowerAt | engine/healer.py:282 | Lower case changes A to Z by 32 and no other character. |
| HealingScore.CollectIdentity | engine/healer.py:286-299 | The check loops answer whether any identifying feature is shared, or that there is none to compare. |
| HealingScore.ScoreIsUnit | engine/healer.py:183-221 | The four signals and the score lie in 0..1. |
| HealingScore.LookAlikeScoresLow | engine/healer.py:205-218 | A different tag or input kind, or no shared identifying feature, scores at most 0.6. |
| HealingScore.LookAlikeReachesCap | engine/healer.py:216-218 | A concrete look-alike that scores exactly 0.6. |
| HealingScore.UnchangedScore | engine/healer.py:183-221 | The exact score of an unchanged element; it is 1 iff the element has a comparable attribute, a box and structure. |
| HealingSearch.AttemptHealing | engine/healer.py:106-180 | A fallback is selected iff one reaches the threshold, the first that does; otherwise the clear winner by the margin over everything evaluated, iff there is one. |
| HealingSearch.TryFallbacks | engine/healer.py:131-148 | The first stage stops at the first fallback to reach the threshold, with everything evaluated before it in the report. |
| HealingSearch.ScanPage | engine/healer.py:151-159 | The second stage adds exactly the scanned locators not tried before that resolve. |
| HealingSearch.SelectBestIsClearWinner | engine/healer.py:161-170 | Comparing the two best of the ranking finds exactly the candidate ahead of all others by the margin. |
| HealingSearch.EvaluatedOnce | engine/healer.py:132-159 | No locator is evaluated twice, none that was tried, and each is scored as it resolves. |
| HealingSearch.EvaluatedAll | engine/healer.py:132-159 | Every untried locator that resolves is evaluated. |
| HealingSearch.ReportListsEvaluated | engine/healer.py:260-272 | The report is a descending permutation of what was evaluated, without repeats and without the failed locator. |
| HealingSearch.SelectedIsEvaluated | engine/healer.py:125-180 | What is selected resolves, is not the failed locator and reaches the threshold, which is the reported confidence's bound. |
| HealingSearch.ReportedConfidence | engine/healer.py:260-272 | A report names the failed locator; its confidence is the score of the selected one, and 0 without. |
| Healer.NeverHealsOntoLookAlike | engine/healer.py:106-221 | With a stored fingerprint and a threshold above 0.6, the selected element has the stored tag if both are known, the input kind, and a shared identifying feature if there were any. |
| Healer.NoLookAlikeSelected | engine/healer.py:106-221 | The same as one statement: above the threshold of 0.6 what is selected is no look-alike. |
| Healer.IdentityByFields | engine/healer.py:286-299 | The identity check answers by the fields: whether an id, name, placeholder, label or href that the failed locator did not use is the same, or the texts are at least 80 percent alike; none without any of these. |
| Healer.SelectedHasIdentity | engine/healer.py:106-221 | Above the threshold of 0.6 the selected element has the stored tag if both are known, is the same kind of input, and shares one of these values, or 80 percent of the text, if the stored element had any. |
| Healer.ScoreByFields | engine/healer.py:183-221 | The score, to four places: 0 for another tag or input kind; else 0.4 of the attribute signal and 0.2 of each other one, capped at 0.6 without the stored identity, and at least 0.85 with the stored id. |
| Healer.WithoutFingerprint | engine/healer.py:246-257 | Without a stored fingerprint every locator that resolves scores 0.8. |
| Healer.SingleFallbackSelected | engine/healer.py:131-148 | A lone fallback that reaches the threshold is selected whatever it looks like. |
| Healer.LowThresholdHealsOntoLookAlike | engine/healer.py:106-221 | For every sound library, every threshold up to 0.6, every primary locator that reads no attribute and every other fallback there are a stored element and a page without the primary on which every outcome of the search selects a look-alike. |
| Healer.NothingRead | engine/healer.py:86-98 | A locator without a bracket or a hash reads no attribute, so nothing is ignored for it. |
| Healer.SoleBracketIsBroken | engine/healer.py:86-98 | A selector with one bracket that compares an attribute relies on exactly that attribute, for each of the eleven names, five comparison signs or none, and any spacing. |
| Healer.BareBracketReadsNothing | engine/healer.py:86-98 | A bracket without a comparison is taken to rely on nothing. |
| Healer.HashIsBroken | engine/healer.py:88-98 | A selector with `#id` and no bracket relies on the id alone. |
| Locators.GenerateLocators | engine/locators.py:42-114 | The deduplicating loop gives each entry's locator at its first place in bucket order. |
| Locators.GeneratedFacts | engine/locators.py:42-114 | Generated locators are distinct, not empty, exactly the entries', and at least one. |
| Locators.GeneratedByField | engine/locators.py:42-114 | A locator is generated iff it is one of twelve literal forms over the fingerprint's fields, each under the condition of that form. |
| Locators.EscapedUndone | engine/locators.py:63 | Escaping a text puts a backslash before every quote, and taking the escapes out gives the text back. |
| Locators.ShownUndone | engine/locators.py:63 | The text of a locator is the first 80 characters, escaped. |
| Locators.DottedJoined | engine/locators.py:92 | A class list is written class by class, a dot before each, without the empty ones. |
| Locators.GeneratedIsRanked | engine/locators.py:42-152 | For a fingerprint whose texts hold no bracket, colon, hyphen, slash or hash, every generated locator is ranked in the bucket it was generated for, so ranking the generated list again changes nothing. |
| Locators.Target.Enrich | engine/runner.py:715-747 | A target gets the ranked union of its fallbacks and the unknown generated locators, and the new fingerprint; without one nothing changes. |
| Locators.EnrichedIsWellFormed | engine/runner.py:735-740 | No fallback is lost, each unknown generated locator is added once and never the primary, and the list is sorted with old order kept inside each bucket. |
| Locators.EnrichAllFacts | engine/runner.py:715-747 | The same over any run of enrichments, with the exact contents of the final list. |
| Locators.EnrichedAgain | engine/runner.py:715-747 | Enriching with any fingerprint seen before changes nothing. |
| StepRunner.ExecuteStep | engine/runner.py:279-334 | The try and except paths, with their searches, give a result the step may have, and the target learns exactly what a passed step captured. |
| StepRunner.StepIsSound | engine/runner.py:282-317 | A step passes only if its own locator acted; a check that failed where the action was tried first, on the own locator or on an early replacement, fails it without another search; a healed one acted on a selected replacement, above a threshold of 0.6 on no look-alike of what the target stored. |
| StepRunner.StepByCase | engine/runner.py:279-334 | A step, case by case over what the page does: when the early and the late search are made, on what the action is tried, and which result each ending gives; it teaches its target what was captured iff it passed on an action that locates. |
| StepRunner.RunTest | engine/runner.py:149-205 | The loop yields results up to the first failure or crash, each on the targets as the steps before left them, and leaves the targets as these results teach. |
| StepRunner.OneMoreResult | engine/runner.py:149-188 | Appending one result to a run without a failure keeps it a run and changes the targets by that result alone. |
| StepRunner.NoHealedLookAlike | engine/runner.py:389-405 | In every run with a threshold above 0.6, each healed step acted on an element that is no look-alike of what its target had stored when the step ran. |
| StepRunner.HealedIsRecognised | engine/runner.py:389-405 | In every run with a threshold above 0.6, each healed step acted on an element with the stored tag if both are known, of the same input kind, and with one of the stored identifying values, or a text at least 80 percent alike, if there were any. |
| StepRunner.FallbacksAfterRun | engine/runner.py:715-747 | After a run each target's fallbacks are its first ones enriched by the captures of its passed steps in order, and by nothing else; its fingerprint is the last of these. |
| StepRunner.PassedRunIsUnhealed | engine/runner.py:693-700 | In a run that passed every step ran and acted on its own locator, without a replacement. |
| StepRunner.OverallStatus | engine/runner.py:693-700 | A run fails iff its last result failed; otherwise every step ran, and it passes iff every one passed. |
| Scoring.MeanBetween | agents/healer/candidate_scorer.py:166-184 | The unrounded score lies between any bounds of the components. |
| Scoring.ScoreIsRoundedMean | agents/healer/candidate_scorer.py:183-185 | With components in 0..1 the clamp never acts and rounding moves the mean by at most 0.00005. |
| Scoring.ScoreByName | agents/healer/candidate_scorer.py:166-185 | The score is, to 0.00005, the clamped sum of text, role, kind, page, historical, name, stability and history, each times the weight of that name, over the sum of the weights. |
| Scoring.ScoreMonotone | agents/healer/candidate_scorer.py:153-185 | Raising any components never lowers the rounded score. |
| Scoring.RankCandidates | agents/healer/candidate_scorer.py:205-234 | Scoring in a loop and sorting in place gives the specified ranking. |
| Scoring.RankedByName | agents/healer/candidate_scorer.py:205-234 | The ranking is in descending order of these scores. |
| Scoring.RankedIsPermutation | agents/healer/candidate_scorer.py:222-223 | The ranking is a descending reordering of the input with only each candidate's own confidence changed. |
| Scoring.EnrichWithEvidence | agents/healer/healing_decision.py:290-340 | The loop sets the history component exactly where it was not positive and evidence is. |
| Scoring.EnrichedByField | agents/healer/healing_decision.py:290-340 | Enriching changes the history component only, to the rate, where it was not positive and the rate is. |
| Scoring.HistoryIsOptIn | agents/healer/candidate_scorer.py:92-99 | With history weight 0, enriching changes neither the order nor any confidence. |
| HealingDecision.GenerateRecommendation | agents/healer/healing_decision.py:178-286 | RECOMMEND_HEALING, REQUIRE_VALIDATION and DO_NOT_HEAL are each characterised exactly, the candidates are the ranked found ones, and a selected selector is always one of them. |
| HealingDecision.NothingToHeal | agents/healer/healing_decision.py:71-75 | For ASSERTION_FAILURE, NETWORK_ERROR and APPLICATION_ERROR the answer is DO_NOT_HEAL without selection, whatever was found. |
| HealingDecision.LeaderDecides | agents/healer/healing_decision.py:376-515 | For the other six types a sole candidate, or one ahead by more than the margin, is recommended, to be validated, or put to analysis as its confidence falls to the thresholds; without candidates only UNKNOWN is put to analysis. |
| HealingDecision.TieIsPutToEvaluator | agents/healer/healing_decision.py:582-637 | Two or more candidates within the margin: the evaluator's choice is taken iff the best is below the minimum or at least medium and it names one of them, with its confidence cut to 0..1; else further analysis is required. |
| HealingDecision.Conclude | agents/healer/healing_decision.py:222-253 | The same from a given ranking, with the reassignments of selection, level and action. |
| HealingDecision.Disambiguate | agents/healer/healing_decision.py:582-637 | The evaluator's choice is taken iff its selector is a candidate's, on the first such candidate with the evaluator's confidence. |
| HealingDecision.RecommendationIsSafe | agents/healer/healing_decision.py:178-286 | Whatever is returned with RECOMMEND_HEALING, for any thresholds: the failure may be healed, the selector is one of those found, its confidence is high, and it is the sole candidate, a clear leader, or the evaluator's choice on an ambiguous ranking. |
| HealingDecision.BelowMinimum | agents/healer/healing_decision.py:443-449 | For any thresholds, with candidates whose best is below the minimum the verdict is never DO_NOT_HEAL, and RECOMMEND_HEALING iff the ranking is ambiguous and the evaluator's choice from it reaches the high threshold, and the medium or the minimum where these lie above it. |
| HealingDecision.RankedSelectors | agents/healer/healing_decision.py:205-222 | Enriching and ranking neither add nor drop a selector. |
| LlmClient.Generate | agents/llm/client.py:314-431 | The answer is that of the first attempt not to be repeated among the first 1 + max_retries, or of the last; waits are those the rate limits asked for. |
| LlmClient.CallsAreAttempts | agents/llm/client.py:348-431 | That contract determines the number of calls. |
| LlmClient.AnswerAfter | agents/llm/client.py:314-431 | With k replies that may pass (timeout, lost connection, provider fault, a rate limit of at most 30 seconds without exhausted quota) before one that may not, there are k + 1 attempts or as many as allowed, the waits are those asked for, and the answer is that reply's text with the configured names filled in, its error, or the last error. |
| LlmClient.WaitsAreBounded | agents/llm/exceptions.py:74-102 | At most one wait per repeated attempt, and in total at most 30 seconds for each. |
| Visual.ComparePixels | engine/visual.py:40-47 | Each pixel is compared before it is overwritten; the count and the painted buffer are those of the original images. |
| Visual.Compare | engine/visual.py:30-73 | All fields of the comparison for equal and different widths: rounded ratio, counts, size change, and a diff image iff something changed. |
| Visual.RatioIsShare | engine/visual.py:68-69 | The reported ratio lies in 0..1, at most 0.000005 from the share of changed pixels, and is 0 when nothing changed. |
| Visual.DifferingBounds | engine/visual.py:41-47 | The count is at most the total, 0 iff every pixel is within the tolerance, and the total iff none is. |
| Visual.DifferingByBytes | engine/visual.py:41-47 | The count is the number of pixels of whose four bytes some pair is more than 40 apart. |
| Visual.NoneFar | engine/visual.py:41-47 | It is 0 iff every byte is at most 40 off. |
| Visual.DiffByBytes | engine/visual.py:40-47 | In the diff image such a pixel is (230, 30, 30, 255), and any other three equal bytes, the nearest to 200 plus a fifth of the mean colour, with its own opacity. |
| Visual.DifferingSymmetric | engine/visual.py:43-45 | Swapping baseline and current image keeps the count. |
| Visual.MissingRowsCount | engine/visual.py:13-16 | For opaque screenshots every pixel of the rows only one has counts, and the others count as without them. |
| Visual.GreyIsNearest | engine/visual.py:46 | The faded grey is the whole number nearest to 200 + mean / 5, between 200 and 251. |
| Rounding.Round4Between | engine/healer.py:221 | Rounding to four decimals keeps a number on its side of a four-decimal bound. |
| Rounding.RoundIsNearest | engine/healer.py:221 | Rounding gives a nearest whole number, the even one of two. |
| Rounding.Round4Near | engine/healer.py:221 | Rounding to four places moves a number by at most 0.00005, to a multiple of 0.0001. |
| Sequences.StableSortUnique | agents/memory/in_memory_store.py:56-66 | Order by key and stability determine a sort's result. |
| Sequences.FirstMaxIsHead | agents/memory/in_memory_store.py:68-77 | `max` with a key is the head of the stable descending sort. |

## Left out

- Playwright, HTTP, git, databases, language-model providers and prompts: their answers are arbitrary inputs.
- Planner, analyzer and candidate generator of the agents: arbitrary answers; exceptions they raise are not modelled.
- `build_patch`'s bookkeeping of edited, handled, applied and manual findings, and the framework-specific templates:
  tables and concatenations that a reading settles.
- Parsing in `security/patcher.py`: beyond comments and strings only the grammar facts named above are used.  Replacement
  fields of f-strings are read as string, so `set_cookie` calls inside them are not covered.  Text that holds a lone
  carriage return is not split by the patcher as Python's parser splits it, so positions are those of the patcher's own
  lines.
- InsertAfterLine: whether the inserted block is valid code is not modelled.
- Regular-expression tables of the analysis, and the page scan: arbitrary inputs.
- Evidence and reason texts, logging, identifiers, durations, artifacts and other report fields.
- Unknown keys in the failure policies, which the code ignores.
- HealingSearch.AttemptHealing: floating-point rounding in the margin test is not modelled; a gap that is 0.05 on
  paper may be a little less in the machine.
- PersistentStore.PersistentMemoryStore.EraseAccount: of the account's other data only whether its erasure went through.
- PersistentStore.PersistentMemoryStore.Load: inheritance is modelled by composition, JSON by its parsed content.
- StoreLimiter.NoLostUpdate: the first use, in which two instances may both insert a row, is not modelled.
- WorkQueue.OldestFirst: relative to the documents present at the snapshot, because one store allocates the id and
  creates the document in two operations.
- StepRunner.RunTest: tabs, downloads, screenshots and the visual check are left out, with any crash after the last step, and
  so are exceptions raised by the search for a replacement itself.
- LlmClient.Generate: a provider's content is a text or absent.
- Scoring.RankedIsPermutation: values are reals, so sums carry no floating-point error.
