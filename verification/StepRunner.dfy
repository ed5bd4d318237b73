/** Executing one step and running a test step by step (engine/runner.py). */
module StepRunner {
  import opened Sequences
  import opened Fingerprints
  import opened HealingScore
  import opened HealingSearch
  import opened Healer
  import opened Locators

  datatype Status = PASSED | HEALED | FAILED

  /** How an attempt at a step's action can end; a crash is an exception that the step does not handle. */
  datatype Attempt = Acted | CheckFailed | Broke | Crashed

  /** The page while a replacement is looked for: what it holds, and how the action would end on each locator. */
  datatype Look = Look(resolve: string -> Option<Fingerprint>, extracted: seq<string>, act: string -> Attempt)

  /**
   * What the browser answers during a step: whether the primary locator stays missing, how the action ends on it,
   * the page at each of the two searches, and the fingerprint captured of the element.
   */
  datatype Page = Page(missing: bool, primary: Attempt, early: Look, late: Look, captured: Option<Fingerprint>)

  /** `heals`: its action is one that is healed early; `locates`: its action reports the locator it used. */
  datatype Step = Step(id: string, heals: bool, locates: bool, target: Option<nat>)

  datatype StepResult = StepResult(stepId: string, status: Status, locator: Option<string>, healing: Option<Report>)

  datatype Config = Config(threshold: real, quickHeal: bool, lib: Library, word: char -> bool)

  function SearchOf(cfg: Config, t: TargetState, look: Look): Search {
    Search(t.primary, t.fallbacks, t.fingerprint.Some?, look.extracted, cfg.threshold,
           Assess(cfg.lib, t.fingerprint, Broken(cfg.word, t.primary), look.resolve))
  }

  // ---- One step ----

  /** A missing locator is healed at once when there is something to heal from. */
  predicate HealsEarly(cfg: Config, step: Step, t: Option<TargetState>, page: Page) {
    step.heals && cfg.quickHeal && page.missing && t.Some? && (t.value.fallbacks != [] || t.value.fingerprint.Some?)
  }

  predicate Selects(r: Option<Report>) { r.Some? && r.value.selected.Some? }

  /** How the action ends where it is tried first. */
  function First(page: Page, early: Option<Report>): Attempt {
    if Selects(early) then page.early.act(early.value.selected.value) else page.primary
  }

  /** Only a breakage is healed: a failed check is a result, not a broken locator. */
  predicate HealsLate(t: Option<TargetState>, first: Attempt) {
    t.Some? && first == Broke
  }

  /** What the two searches make of the step; None when an exception escapes. */
  function ResultOf(step: Step, t: Option<TargetState>, page: Page, early: Option<Report>, late: Option<Report>)
    : Option<StepResult>
  {
    match First(page, early)
    case Crashed => None
    case Acted =>
      if Selects(early) then Some(StepResult(step.id, HEALED, early.value.selected, early))
      else Some(StepResult(step.id, PASSED, if step.locates && t.Some? then Some(t.value.primary) else None, None))
    case _ =>
      if Selects(late) && page.late.act(late.value.selected.value) == Acted
      then Some(StepResult(step.id, HEALED, late.value.selected, late))
      else Some(StepResult(step.id, FAILED, None, late))
  }

  ghost predicate Searched(cfg: Config, t: Option<TargetState>, look: Look, tried: bool, r: Option<Report>) {
    if tried then t.Some? && r.Some? && Outcome(SearchOf(cfg, t.value, look), r.value) else r == None
  }

  ghost predicate ExecutedBy(cfg: Config, step: Step, t: Option<TargetState>, page: Page, out: Option<StepResult>,
                             early: Option<Report>, late: Option<Report>)
  {
    && Searched(cfg, t, page.early, HealsEarly(cfg, step, t, page), early)
    && Searched(cfg, t, page.late, HealsLate(t, First(page, early)), late)
    && out == ResultOf(step, t, page, early, late)
  }

  /** `_execute_step`, as a relation between target, page and result. */
  ghost predicate Executed(cfg: Config, step: Step, t: Option<TargetState>, page: Page, out: Option<StepResult>) {
    exists early, late :: ExecutedBy(cfg, step, t, page, out, early, late)
  }

  /** The fingerprint that a result teaches the step's target. */
  function Lesson(step: Step, page: Page, out: Option<StepResult>): Option<Fingerprint> {
    if out.Some? && out.value.status == PASSED && step.locates then page.captured else None
  }

  function StateOf(target: Target?): Option<TargetState>
    reads target
  {
    if target == null then None else Some(target.Now())
  }

  lemma AssessNames(cfg: Config, t: TargetState, look: Look)
    ensures Named(SearchOf(cfg, t, look))
  {
  }

  /** A search for a replacement, if one is tried: the report and how the action ends on what it selects. */
  method Heal(cfg: Config, t: Option<TargetState>, look: Look, tried: bool) returns (report: Option<Report>)
    requires tried ==> t.Some?
    ensures Searched(cfg, t, look, tried, report)
  {
    if !tried {
      return None;
    }
    AssessNames(cfg, t.value, look);
    var r := AttemptHealing(SearchOf(cfg, t.value, look));
    return Some(r);
  }

  /** The step on the page, before the target learns from it. */
  method Perform(cfg: Config, step: Step, t: Option<TargetState>, page: Page) returns (out: Option<StepResult>)
    ensures Executed(cfg, step, t, page, out)
  {
    var early := Heal(cfg, t, page.early, HealsEarly(cfg, step, t, page));
    var raised := page.primary;
    if Selects(early) {
      raised := page.early.act(early.value.selected.value);
      if raised == Acted {
        out := Some(StepResult(step.id, HEALED, early.value.selected, early));
        assert ExecutedBy(cfg, step, t, page, out, early, None);
        return;
      }
    }
    if raised == Acted {
      out := Some(StepResult(step.id, PASSED, if step.locates && t.Some? then Some(t.value.primary) else None, None));
      assert ExecutedBy(cfg, step, t, page, out, early, None);
      return;
    }
    if raised == Crashed {
      assert ExecutedBy(cfg, step, t, page, None, early, None);
      return None;
    }
    var late := Heal(cfg, t, page.late, HealsLate(t, raised));
    out := Some(StepResult(step.id, FAILED, None, late));
    if Selects(late) {
      if page.late.act(late.value.selected.value) == Acted {
        out := Some(StepResult(step.id, HEALED, late.value.selected, late));
      }
    }
    assert ExecutedBy(cfg, step, t, page, out, early, late);
  }

  method ExecuteStep(cfg: Config, step: Step, target: Target?, page: Page) returns (out: Option<StepResult>)
    modifies target
    ensures Executed(cfg, step, old(StateOf(target)), page, out)
    ensures target != null ==>
      var lesson := Lesson(step, page, out);
      target.Now() == if lesson.Some? then Learned(old(target.Now()), lesson.value) else old(target.Now())
  {
    out := Perform(cfg, step, StateOf(target), page);
    if out.Some? && out.value.status == PASSED && step.locates && target != null {
      target.Enrich(page.captured);
    }
  }

  /** What a healed step acted on, as the page was then: found there by its locator, and no look-alike. */
  ghost predicate Genuine(cfg: Config, t: TargetState, look: Look, locator: string)
    requires t.fingerprint.Some?
  {
    && look.act(locator) == Acted && look.resolve(locator).Some?
    && !LookAlike(cfg.lib, t.fingerprint.value, look.resolve(locator).value, Broken(cfg.word, t.primary))
  }

  lemma SearchHeals(cfg: Config, t: TargetState, look: Look)
    requires t.fingerprint.Some?
    ensures Heals(SearchOf(cfg, t, look), cfg.lib, t.fingerprint, Broken(cfg.word, t.primary), look.resolve)
  {
  }

  /** A selected locator that acted is genuine, above the threshold of 0.6. */
  lemma SelectionIsGenuine(cfg: Config, t: TargetState, look: Look, r: Report)
    requires cfg.threshold > 0.6 && t.fingerprint.Some?
    requires Outcome(SearchOf(cfg, t, look), r) && r.selected.Some? && look.act(r.selected.value) == Acted
    ensures Genuine(cfg, t, look, r.selected.value)
  {
    SearchHeals(cfg, t, look);
    NoLookAlikeSelected(SearchOf(cfg, t, look), r, cfg.lib, t.fingerprint.value, Broken(cfg.word, t.primary), look.resolve);
  }

  /** The healed result of a search that was tried. */
  lemma HealedIsGenuine(cfg: Config, t: Option<TargetState>, look: Look, tried: bool, report: Option<Report>)
    requires Searched(cfg, t, look, tried, report) && Selects(report)
    requires look.act(report.value.selected.value) == Acted
    ensures t.Some? && report.value.selected.value != t.value.primary
    ensures t.value.fingerprint.Some? && cfg.threshold > 0.6 ==>
      Genuine(cfg, t.value, look, report.value.selected.value)
  {
    AssessNames(cfg, t.value, look);
    var c := SelectedIsEvaluated(SearchOf(cfg, t.value, look), report.value);
    if t.value.fingerprint.Some? && cfg.threshold > 0.6 {
      SelectionIsGenuine(cfg, t.value, look, report.value);
    }
  }

  /** A check that failed where the action was tried first fails the step, without another search. */
  lemma FailedCheckFails(cfg: Config, step: Step, t: Option<TargetState>, page: Page, r: StepResult,
                         early: Option<Report>, late: Option<Report>)
    requires ExecutedBy(cfg, step, t, page, Some(r), early, late) && First(page, early) == CheckFailed
    ensures r.status == FAILED && late == None
  {
  }

  /**
   * One step: it passes only if its own locator acted; a check that failed where the action was tried first, be it on
   * an early replacement, fails it; and if it is healed, with a stored fingerprint and a threshold above 0.6, the
   * element acted on is genuine.
   */
  lemma {:induction false} StepIsSound(cfg: Config, step: Step, t: Option<TargetState>, page: Page, r: StepResult)
    requires Executed(cfg, step, t, page, Some(r))
    ensures r.status == PASSED ==> page.primary == Acted && r.healing == None
    ensures !HealsEarly(cfg, step, t, page) && page.primary == CheckFailed ==> r.status == FAILED
    ensures forall early, late ::
      ExecutedBy(cfg, step, t, page, Some(r), early, late) && First(page, early) == CheckFailed
      ==> r.status == FAILED && late == None
    ensures r.status == HEALED ==> t.Some? && r.locator.Some? && r.locator.value != t.value.primary
    ensures r.status == HEALED && t.value.fingerprint.Some? && cfg.threshold > 0.6 ==>
      Genuine(cfg, t.value, page.early, r.locator.value) || Genuine(cfg, t.value, page.late, r.locator.value)
  {
    var early, late :| ExecutedBy(cfg, step, t, page, Some(r), early, late);
    forall a, b | ExecutedBy(cfg, step, t, page, Some(r), a, b) && First(page, a) == CheckFailed
      ensures r.status == FAILED && b == None
    {
      FailedCheckFails(cfg, step, t, page, r, a, b);
    }
    if r.status == HEALED {
      if First(page, early) == Acted {
        HealedIsGenuine(cfg, t, page.early, HealsEarly(cfg, step, t, page), early);
      } else {
        HealedIsGenuine(cfg, t, page.late, HealsLate(t, First(page, early)), late);
      }
    }
  }

  // ---- One step, case by case ----

  /** A search made on a page as it is, with the target's fallbacks and fingerprint and the threshold of the run. */
  ghost predicate FoundBy(cfg: Config, t: TargetState, look: Look, r: Report) {
    Outcome(Search(t.primary, t.fallbacks, t.fingerprint != None, look.extracted, cfg.threshold,
                   Assess(cfg.lib, t.fingerprint, Broken(cfg.word, t.primary), look.resolve)), r)
  }

  /**
   * The early search is made iff the action is one that is healed early, this is switched on, the locator stays missing,
   * and the target has fallbacks or a fingerprint.  The action is tried on what it selects, or else on the own locator.
   * The late search is made iff there is a target and that breaks.
   */
  ghost predicate Goes(cfg: Config, step: Step, t: Option<TargetState>, page: Page, out: Option<StepResult>,
                       early: Option<Report>, late: Option<Report>)
  {
    var replaced := early.Some? && early.value.selected.Some?;
    var first := if replaced then page.early.act(early.value.selected.value) else page.primary;
    && (early.Some? <==>
         step.heals && cfg.quickHeal && page.missing && t.Some? && (|t.value.fallbacks| > 0 || t.value.fingerprint.Some?))
    && (early.Some? ==> FoundBy(cfg, t.value, page.early, early.value))
    && (late.Some? <==> t.Some? && first == Broke) && (late.Some? ==> FoundBy(cfg, t.value, page.late, late.value))
    && (first == Crashed ==> out == None)
    && (first == Acted && replaced ==> out == Some(StepResult(step.id, HEALED, early.value.selected, early)))
    && (first == Acted && !replaced ==>
         out == Some(StepResult(step.id, PASSED, if step.locates && t.Some? then Some(t.value.primary) else None, None)))
    && (first == CheckFailed ==> out == Some(StepResult(step.id, FAILED, None, None)))
    && (first == Broke ==>
         out == if late.Some? && late.value.selected.Some? && page.late.act(late.value.selected.value) == Acted
                then Some(StepResult(step.id, HEALED, late.value.selected, late))
                else Some(StepResult(step.id, FAILED, None, late)))
  }

  lemma GoesAsExecuted(cfg: Config, step: Step, t: Option<TargetState>, page: Page, out: Option<StepResult>,
                       early: Option<Report>, late: Option<Report>)
    ensures Goes(cfg, step, t, page, out, early, late) <==> ExecutedBy(cfg, step, t, page, out, early, late)
  {
  }

  /** A step goes exactly so, and teaches its target what was captured iff it passed on an action that locates. */
  lemma {:induction false} StepByCase(cfg: Config, step: Step, t: Option<TargetState>, page: Page, out: Option<StepResult>)
    ensures Executed(cfg, step, t, page, out) <==> exists early, late :: Goes(cfg, step, t, page, out, early, late)
    ensures Lesson(step, page, out)
         == if step.locates && out.Some? && out.value.status == PASSED then page.captured else None
  {
    if early, late :| ExecutedBy(cfg, step, t, page, out, early, late) {
      GoesAsExecuted(cfg, step, t, page, out, early, late);
    }
    if early, late :| Goes(cfg, step, t, page, out, early, late) {
      GoesAsExecuted(cfg, step, t, page, out, early, late);
    }
  }

  // ---- Runs ----

  /** `_aggregate_status` */
  function Aggregate(results: seq<StepResult>): Status {
    var statuses := set r | r in results :: r.status;
    if FAILED in statuses then FAILED else if HEALED in statuses then HEALED else PASSED
  }

  /** Every step names one of the targets, or none. */
  predicate Planned(plan: seq<Step>, pages: seq<Page>, targets: nat) {
    |plan| == |pages| && forall i :: 0 <= i < |plan| && plan[i].target.Some? ==> plan[i].target.value < targets
  }

  function TargetAt(step: Step, ts: seq<TargetState>): Option<TargetState>
    requires step.target.Some? ==> step.target.value < |ts|
  {
    if step.target.None? then None else Some(ts[step.target.value])
  }

  /** How a target takes in a fingerprint. */
  type Learning = (TargetState, Fingerprint) -> TargetState

  function Enriching(): Learning {
    (t: TargetState, f: Fingerprint) => Learned(t, f)
  }

  function Taught(learn: Learning, step: Step, page: Page, out: Option<StepResult>, ts: seq<TargetState>)
    : (after: seq<TargetState>)
    requires step.target.Some? ==> step.target.value < |ts|
    ensures |after| == |ts|
  {
    var lesson := Lesson(step, page, out);
    if step.target.Some? && lesson.Some?
    then ts[step.target.value := learn(ts[step.target.value], lesson.value)]
    else ts
  }

  // The lemmas about the loop hold for any way of recording results and of changing the targets by them.

  type Teaching = (nat, StepResult, seq<TargetState>) -> seq<TargetState>
  type Recording = (nat, seq<TargetState>, StepResult) -> bool

  /** What the first n results make of the targets. */
  function After(teach: Teaching, results: seq<StepResult>, ts: seq<TargetState>, n: nat): seq<TargetState>
    requires n <= |results|
  {
    if n == 0 then ts else teach(n - 1, results[n - 1], After(teach, results, ts, n - 1))
  }

  /** The i-th result, on the targets as the results before it left them. */
  ghost predicate RecordedAt(recorded: Recording, teach: Teaching, ts: seq<TargetState>, results: seq<StepResult>, i: nat)
    requires i < |results|
  {
    recorded(i, After(teach, results, ts, i), results[i])
  }

  /** The results so far, none of which failed. */
  ghost predicate Succeeding(recorded: Recording, teach: Teaching, ts: seq<TargetState>, results: seq<StepResult>) {
    && (forall i :: 0 <= i < |results| ==> RecordedAt(recorded, teach, ts, results, i))
    && (forall i :: 0 <= i < |results| ==> results[i].status != FAILED)
  }

  /** Results of the given number of steps, or up to the first that failed. */
  ghost predicate Stepped(recorded: Recording, teach: Teaching, steps: nat, ts: seq<TargetState>, results: seq<StepResult>) {
    && |results| <= steps
    && (forall i :: 0 <= i < |results| ==> RecordedAt(recorded, teach, ts, results, i))
    && (forall i :: 0 <= i < |results| - 1 ==> results[i].status != FAILED)
    && (|results| < steps ==> results != [] && results[|results| - 1].status == FAILED)
  }

  /** The result of the step; a crash is put down to the plan's first step. */
  ghost function RecordedBy(cfg: Config, plan: seq<Step>, pages: seq<Page>): Recording {
    (i: nat, ts: seq<TargetState>, r: StepResult) =>
      Planned(plan, pages, |ts|) && i < |plan|
      && (Executed(cfg, plan[i], TargetAt(plan[i], ts), pages[i], Some(r))
          || (Executed(cfg, plan[i], TargetAt(plan[i], ts), pages[i], None)
              && r == StepResult(plan[0].id, FAILED, None, None)))
  }

  function TaughtBy(learn: Learning, plan: seq<Step>, pages: seq<Page>): Teaching {
    (i: nat, r: StepResult, ts: seq<TargetState>) =>
      if Planned(plan, pages, |ts|) && i < |plan| then Taught(learn, plan[i], pages[i], Some(r), ts) else ts
  }

  lemma {:induction false} AfterKeepsTargets(learn: Learning, plan: seq<Step>, pages: seq<Page>, results: seq<StepResult>,
                                             ts: seq<TargetState>, n: nat)
    requires n <= |results|
    ensures |After(TaughtBy(learn, plan, pages), results, ts, n)| == |ts|
  {
    if n > 0 {
      AfterKeepsTargets(learn, plan, pages, results, ts, n - 1);
    }
  }

  /** The targets after the first n results. */
  function TargetsAfter(learn: Learning, plan: seq<Step>, pages: seq<Page>, results: seq<StepResult>,
                        ts: seq<TargetState>, n: nat): (after: seq<TargetState>)
    requires n <= |results|
    ensures |after| == |ts|
  {
    AfterKeepsTargets(learn, plan, pages, results, ts, n);
    After(TaughtBy(learn, plan, pages), results, ts, n)
  }

  /** A run: each step on the targets as the steps before it left them, until one fails. */
  ghost predicate Ran(cfg: Config, plan: seq<Step>, pages: seq<Page>, ts: seq<TargetState>, results: seq<StepResult>) {
    Stepped(RecordedBy(cfg, plan, pages), TaughtBy(Enriching(), plan, pages), |plan|, ts, results)
  }

  function Snapshot(targets: seq<Target>): (ts: seq<TargetState>)
    reads targets
    ensures |ts| == |targets| && forall i :: 0 <= i < |ts| ==> ts[i] == targets[i].Now()
  {
    seq(|targets|, i requires 0 <= i < |targets| reads targets => targets[i].Now())
  }

  lemma {:induction false} EarlierTargets(teach: Teaching, results: seq<StepResult>, r: StepResult, ts: seq<TargetState>,
                                          n: nat)
    requires n <= |results|
    ensures After(teach, results + [r], ts, n) == After(teach, results, ts, n)
  {
    if n > 0 {
      EarlierTargets(teach, results, r, ts, n - 1);
    }
  }

  lemma OneMoreResult(recorded: Recording, teach: Teaching, steps: nat, ts: seq<TargetState>, results: seq<StepResult>,
                      r: StepResult)
    requires |results| < steps && Succeeding(recorded, teach, ts, results)
    requires recorded(|results|, After(teach, results, ts, |results|), r)
    ensures r.status != FAILED ==> Succeeding(recorded, teach, ts, results + [r])
    ensures r.status == FAILED ==> Stepped(recorded, teach, steps, ts, results + [r])
    ensures After(teach, results + [r], ts, |results| + 1) == teach(|results|, r, After(teach, results, ts, |results|))
  {
    EarlierTargets(teach, results, r, ts, |results|);
    forall i | 0 <= i < |results| ensures RecordedAt(recorded, teach, ts, results + [r], i) {
      EarlierTargets(teach, results, r, ts, i);
      assert RecordedAt(recorded, teach, ts, results, i);
    }
    assert RecordedAt(recorded, teach, ts, results + [r], |results|);
  }

  lemma AllSucceeded(recorded: Recording, teach: Teaching, ts: seq<TargetState>, results: seq<StepResult>)
    requires Succeeding(recorded, teach, ts, results)
    ensures Stepped(recorded, teach, |results|, ts, results)
  {
  }

  /** The step on its target, if it names one. */
  method ExecuteOn(cfg: Config, step: Step, targets: seq<Target>, page: Page) returns (out: Option<StepResult>)
    requires step.target.Some? ==> step.target.value < |targets|
    requires forall i, j :: 0 <= i < j < |targets| ==> targets[i] != targets[j]
    modifies targets
    ensures Executed(cfg, step, TargetAt(step, old(Snapshot(targets))), page, out)
    ensures Snapshot(targets) == Taught(Enriching(), step, page, out, old(Snapshot(targets)))
  {
    var target: Target? := null;
    if step.target.Some? {
      target := targets[step.target.value];
    }
    out := ExecuteStep(cfg, step, target, page);
  }

  /** One turn of the loop. */
  method Turn(cfg: Config, plan: seq<Step>, targets: seq<Target>, pages: seq<Page>, i: nat) returns (r: StepResult)
    requires Planned(plan, pages, |targets|) && i < |plan|
    requires forall i, j :: 0 <= i < j < |targets| ==> targets[i] != targets[j]
    modifies targets
    ensures RecordedBy(cfg, plan, pages)(i, old(Snapshot(targets)), r)
    ensures Snapshot(targets) == TaughtBy(Enriching(), plan, pages)(i, r, old(Snapshot(targets)))
  {
    var out := ExecuteOn(cfg, plan[i], targets, pages[i]);
    r := if out == None then StepResult(plan[0].id, FAILED, None, None) else out.value;
    assert Lesson(plan[i], pages[i], Some(r)) == Lesson(plan[i], pages[i], out);
  }

  /** One more result, on the targets as the results before it left them. */
  method OneMore(cfg: Config, plan: seq<Step>, targets: seq<Target>, pages: seq<Page>, results: seq<StepResult>,
                 ghost ts: seq<TargetState>) returns (r: StepResult)
    requires Planned(plan, pages, |targets|) && forall i, j :: 0 <= i < j < |targets| ==> targets[i] != targets[j]
    requires |results| < |plan|
    requires Succeeding(RecordedBy(cfg, plan, pages), TaughtBy(Enriching(), plan, pages), ts, results)
    requires Snapshot(targets) == After(TaughtBy(Enriching(), plan, pages), results, ts, |results|)
    modifies targets
    ensures r.status != FAILED ==>
      Succeeding(RecordedBy(cfg, plan, pages), TaughtBy(Enriching(), plan, pages), ts, results + [r])
    ensures r.status == FAILED ==> Ran(cfg, plan, pages, ts, results + [r])
    ensures Snapshot(targets) == After(TaughtBy(Enriching(), plan, pages), results + [r], ts, |results| + 1)
  {
    r := Turn(cfg, plan, targets, pages, |results|);
    OneMoreResult(RecordedBy(cfg, plan, pages), TaughtBy(Enriching(), plan, pages), |plan|, ts, results, r);
  }

  /** `run_test`: the loop over the plan, learning in place from each step that passes. */
  method RunTest(cfg: Config, plan: seq<Step>, targets: seq<Target>, pages: seq<Page>)
    returns (results: seq<StepResult>, overall: Status)
    requires Planned(plan, pages, |targets|) && forall i, j :: 0 <= i < j < |targets| ==> targets[i] != targets[j]
    modifies targets
    ensures Ran(cfg, plan, pages, old(Snapshot(targets)), results) && overall == Aggregate(results)
    ensures Snapshot(targets) == TargetsAfter(Enriching(), plan, pages, results, old(Snapshot(targets)), |results|)
  {
    results := [];
    ghost var ts := Snapshot(targets);
    for i := 0 to |plan|
      invariant |results| == i
      invariant Succeeding(RecordedBy(cfg, plan, pages), TaughtBy(Enriching(), plan, pages), ts, results)
      invariant Snapshot(targets) == After(TaughtBy(Enriching(), plan, pages), results, ts, i)
    {
      var r := OneMore(cfg, plan, targets, pages, results, ts);
      results := results + [r];
      if r.status == FAILED {
        return results, Aggregate(results);
      }
    }
    AllSucceeded(RecordedBy(cfg, plan, pages), TaughtBy(Enriching(), plan, pages), ts, results);
    overall := Aggregate(results);
  }

  // ---- What every run guarantees ----

  lemma RanIsSound(cfg: Config, plan: seq<Step>, pages: seq<Page>, ts: seq<TargetState>, results: seq<StepResult>, i: nat)
    requires Planned(plan, pages, |ts|) && Ran(cfg, plan, pages, ts, results) && i < |results|
    requires results[i].status != FAILED
    ensures Executed(cfg, plan[i], TargetAt(plan[i], TargetsAfter(Enriching(), plan, pages, results, ts, i)), pages[i],
                     Some(results[i]))
  {
    assert RecordedAt(RecordedBy(cfg, plan, pages), TaughtBy(Enriching(), plan, pages), ts, results, i);
  }

  /** In no run, above the threshold of 0.6, does a healed step act on a look-alike of the element its target stored. */
  lemma {:induction false} NoHealedLookAlike(cfg: Config, plan: seq<Step>, pages: seq<Page>, ts: seq<TargetState>,
                                             results: seq<StepResult>, i: nat)
    requires cfg.threshold > 0.6 && Planned(plan, pages, |ts|) && Ran(cfg, plan, pages, ts, results)
    requires i < |results| && results[i].status == HEALED
    ensures var t := TargetAt(plan[i], TargetsAfter(Enriching(), plan, pages, results, ts, i));
            && t.Some? && results[i].locator.Some?
            && (t.value.fingerprint.Some? ==>
              || Genuine(cfg, t.value, pages[i].early, results[i].locator.value)
              || Genuine(cfg, t.value, pages[i].late, results[i].locator.value))
  {
    RanIsSound(cfg, plan, pages, ts, results, i);
    var t := TargetAt(plan[i], TargetsAfter(Enriching(), plan, pages, results, ts, i));
    StepIsSound(cfg, plan[i], t, pages[i], results[i]);
  }

  /**
   * The element that a healed step acted on, compared field by field: the stored tag where both are known, the same kind
   * of input, and one of the stored element's identifying values (or a text at least 80 percent alike) if it had any.
   */
  ghost predicate Recognised(cfg: Config, t: TargetState, look: Look, locator: string)
    requires t.fingerprint.Some?
  {
    && look.act(locator) == Acted && look.resolve(locator).Some?
    && var stored, live := t.fingerprint.value, look.resolve(locator).value;
       && (stored.tag != "" && live.tag != "" ==> live.tag == stored.tag) && SameInput(stored, live)
       && (HadIdentity(stored, Broken(cfg.word, t.primary)) ==>
             SameIdentity(cfg.lib, stored, live, Broken(cfg.word, t.primary)))
  }

  lemma GenuineIsRecognised(cfg: Config, t: TargetState, look: Look, locator: string)
    requires t.fingerprint.Some? && Genuine(cfg, t, look, locator)
    ensures Recognised(cfg, t, look, locator)
  {
    IdentityByFields(cfg.lib, t.fingerprint.value, look.resolve(locator).value, Broken(cfg.word, t.primary));
    InputByFields(t.fingerprint.value, look.resolve(locator).value);
  }

  /** In no run, above the threshold of 0.6, does a healed step act on an element that is not recognised. */
  lemma {:induction false} HealedIsRecognised(cfg: Config, plan: seq<Step>, pages: seq<Page>, ts: seq<TargetState>,
                                              results: seq<StepResult>, i: nat)
    requires cfg.threshold > 0.6 && Planned(plan, pages, |ts|) && Ran(cfg, plan, pages, ts, results)
    requires i < |results| && results[i].status == HEALED
    ensures var t := TargetAt(plan[i], TargetsAfter(Enriching(), plan, pages, results, ts, i));
            && t.Some? && results[i].locator.Some?
            && (t.value.fingerprint.Some? ==>
              || Recognised(cfg, t.value, pages[i].early, results[i].locator.value)
              || Recognised(cfg, t.value, pages[i].late, results[i].locator.value))
  {
    NoHealedLookAlike(cfg, plan, pages, ts, results, i);
    var t := TargetAt(plan[i], TargetsAfter(Enriching(), plan, pages, results, ts, i)).value;
    if t.fingerprint.Some? {
      if Genuine(cfg, t, pages[i].early, results[i].locator.value) {
        GenuineIsRecognised(cfg, t, pages[i].early, results[i].locator.value);
      } else {
        GenuineIsRecognised(cfg, t, pages[i].late, results[i].locator.value);
      }
    }
  }

  /** The fingerprints captured of target k by the steps that passed, in order. */
  function Captures(plan: seq<Step>, pages: seq<Page>, results: seq<StepResult>, n: nat, k: nat): seq<Fingerprint>
    requires |plan| == |pages| && n <= |results| <= |plan|
  {
    if n == 0 then []
    else
      var lesson := Lesson(plan[n - 1], pages[n - 1], Some(results[n - 1]));
      Captures(plan, pages, results, n - 1, k)
      + (if plan[n - 1].target == Some(k) && lesson.Some? then [lesson.value] else [])
  }

  function LearnAll(learn: Learning, t: TargetState, captures: seq<Fingerprint>): TargetState {
    if captures == [] then t
    else learn(LearnAll(learn, t, captures[..|captures| - 1]), captures[|captures| - 1])
  }

  /** A target learns from the steps that passed on it, in order, and from nothing else. */
  lemma {:induction false} LearnsFromPassedSteps(learn: Learning, plan: seq<Step>, pages: seq<Page>,
                                                 results: seq<StepResult>, ts: seq<TargetState>, n: nat, k: nat)
    requires Planned(plan, pages, |ts|) && n <= |results| <= |plan| && k < |ts|
    ensures TargetsAfter(learn, plan, pages, results, ts, n)[k]
         == LearnAll(learn, ts[k], Captures(plan, pages, results, n, k))
  {
    if n > 0 {
      LearnsFromPassedSteps(learn, plan, pages, results, ts, n - 1, k);
      var before, captures := Captures(plan, pages, results, n - 1, k), Captures(plan, pages, results, n, k);
      if captures != before {
        assert captures[..|captures| - 1] == before;
      }
    }
  }

  lemma LearnedOneMore(t: TargetState, start: TargetState, captures: seq<Fingerprint>)
    requires captures != [] && t.primary == start.primary
    requires t.fallbacks == EnrichAll(start.primary, start.fallbacks, captures[..|captures| - 1])
    ensures Learned(t, captures[|captures| - 1]).fallbacks == EnrichAll(start.primary, start.fallbacks, captures)
  {
  }

  lemma {:induction false} LearnAllEnriches(start: TargetState, captures: seq<Fingerprint>)
    ensures var t := LearnAll(Enriching(), start, captures);
            && t.primary == start.primary && t.fallbacks == EnrichAll(start.primary, start.fallbacks, captures)
            && t.fingerprint == if captures == [] then start.fingerprint else Some(captures[|captures| - 1])
  {
    if captures != [] {
      LearnAllEnriches(start, captures[..|captures| - 1]);
      LearnedOneMore(LearnAll(Enriching(), start, captures[..|captures| - 1]), start, captures);
    }
  }

  /** After a run each target's fallbacks are those enriched by the captures of its passed steps, and no others. */
  lemma {:induction false} FallbacksAfterRun(plan: seq<Step>, pages: seq<Page>, results: seq<StepResult>,
                                             ts: seq<TargetState>, k: nat)
    requires Planned(plan, pages, |ts|) && |results| <= |plan| && k < |ts|
    ensures var t := TargetsAfter(Enriching(), plan, pages, results, ts, |results|)[k];
            var captures := Captures(plan, pages, results, |results|, k);
            && t.primary == ts[k].primary && t.fallbacks == EnrichAll(ts[k].primary, ts[k].fallbacks, captures)
            && t.fingerprint == if captures == [] then ts[k].fingerprint else Some(captures[|captures| - 1])
  {
    LearnsFromPassedSteps(Enriching(), plan, pages, results, ts, |results|, k);
    LearnAllEnriches(ts[k], Captures(plan, pages, results, |results|, k));
  }

  /**
   * A run fails iff its last result failed, and nothing ran after it; otherwise every step ran, and it passes iff
   * every one passed.
   */
  lemma {:induction false} OverallStatus(cfg: Config, plan: seq<Step>, pages: seq<Page>, ts: seq<TargetState>,
                                         results: seq<StepResult>)
    requires Planned(plan, pages, |ts|) && Ran(cfg, plan, pages, ts, results)
    ensures Aggregate(results) == FAILED <==> results != [] && results[|results| - 1].status == FAILED
    ensures Aggregate(results) != FAILED ==> |results| == |plan|
    ensures Aggregate(results) == PASSED <==>
      |results| == |plan| && forall i :: 0 <= i < |plan| ==> results[i].status == PASSED
  {
    var statuses := set r | r in results :: r.status;
    forall i | 0 <= i < |results| ensures results[i].status in statuses {
      assert results[i] in results;
    }
  }

  /** A passed run acted on every primary locator, without a replacement anywhere. */
  lemma {:induction false} PassedRunIsUnhealed(cfg: Config, plan: seq<Step>, pages: seq<Page>, ts: seq<TargetState>,
                                               results: seq<StepResult>, i: nat)
    requires Planned(plan, pages, |ts|) && Ran(cfg, plan, pages, ts, results)
    requires Aggregate(results) == PASSED && i < |plan|
    ensures |results| == |plan| && pages[i].primary == Acted && results[i].healing == None
  {
    OverallStatus(cfg, plan, pages, ts, results);
    RanIsSound(cfg, plan, pages, ts, results, i);
    var t := TargetAt(plan[i], TargetsAfter(Enriching(), plan, pages, results, ts, i));
    StepIsSound(cfg, plan[i], t, pages[i], results[i]);
  }
}
