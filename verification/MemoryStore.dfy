/** Records of the healing memory and the one log that gives them meaning (agents/memory/memory_schemas.py). */
module MemoryRecords {
  import opened Sequences
  import opened WhiteSpace

  datatype ExecutionStatus = PASSED | FAILED | SKIPPED | ERROR

  /** Time stamps are ISO strings compared as strings; only their order matters, so they are reals here. */
  datatype ExecutionRecord = ExecutionRecord(
    executionId: string, testId: string, testName: string, timestamp: real, status: ExecutionStatus)

  datatype ElementRecord = ElementRecord(
    elementId: string, selector: string, pageUrl: Option<string>, lastSeen: real)

  /** `validation` is the browser's verdict: success, failure, or inconclusive. */
  datatype HealingRecord = HealingRecord(
    healingId: string, testId: string, oldSelector: string, newSelector: string,
    confidence: real, validation: Option<bool>, timestamp: real)

  datatype Entry = Execution(execution: ExecutionRecord) | Element(element: ElementRecord) | Healing(healing: HealingRecord)

  function ExecutionTime(r: ExecutionRecord): real { r.timestamp }
  function ElementTime(r: ElementRecord): real { r.lastSeen }
  function HealingTime(r: HealingRecord): real { r.timestamp }

  predicate IsPassed(r: ExecutionRecord) { r.status == PASSED }
  predicate IsFailure(r: ExecutionRecord) { r.status == FAILED || r.status == ERROR }
  predicate IsSuccess(r: HealingRecord) { r.validation == Some(true) }
  predicate IsRejected(r: HealingRecord) { r.validation == Some(false) }
  predicate IsInconclusive(r: HealingRecord) { r.validation == None }

  function ForReplacement(newSelector: string): HealingRecord -> bool {
    (r: HealingRecord) => r.newSelector == newSelector
  }

  function ForElement(selector: string, pageUrl: Option<string>): ElementRecord -> bool {
    (r: ElementRecord) => r.selector == selector && (pageUrl == None || r.pageUrl == pageUrl)
  }

  predicate Accepted(e: Entry) {
    match e
    case Execution(r) => !Blank(r.executionId) && !Blank(r.testId) && !Blank(r.testName)
    case Element(r) => !Blank(r.elementId) && !Blank(r.selector)
    case Healing(r) => !Blank(r.healingId) && !Blank(r.oldSelector) && !Blank(r.newSelector)
  }

  // ---- The log, and what each query should find in it ----

  function ExecutionsOf(log: seq<Entry>, testId: string): seq<ExecutionRecord> {
    if log == [] then []
    else
      var last := log[|log| - 1];
      ExecutionsOf(log[..|log| - 1], testId)
      + (if last.Execution? && last.execution.testId == testId then [last.execution] else [])
  }

  function HealingsOf(log: seq<Entry>, selector: string): seq<HealingRecord> {
    if log == [] then []
    else
      var last := log[|log| - 1];
      HealingsOf(log[..|log| - 1], selector)
      + (if last.Healing? && last.healing.oldSelector == selector then [last.healing] else [])
  }

  function ElementsOf(log: seq<Entry>, elementId: string): seq<ElementRecord> {
    if log == [] then []
    else
      var last := log[|log| - 1];
      ElementsOf(log[..|log| - 1], elementId)
      + (if last.Element? && last.element.elementId == elementId then [last.element] else [])
  }

  /** The full history of a test, newest first, ties in the order they were stored. */
  function ExecutionHistory(log: seq<Entry>, testId: string): seq<ExecutionRecord> {
    SortDesc(ExecutionsOf(log, testId), ExecutionTime)
  }

  function HealingHistory(log: seq<Entry>, selector: string): seq<HealingRecord> {
    SortDesc(HealingsOf(log, selector), HealingTime)
  }

  // ---- The three indexes as a fold of the log ----

  /** The matching records of these elements, in the order of the ids and then of the log. */
  function Gathered(log: seq<Entry>, ids: seq<string>, p: ElementRecord -> bool): seq<ElementRecord> {
    if ids == [] then []
    else Gathered(log, ids[..|ids| - 1], p) + Filter(ElementsOf(log, ids[|ids| - 1]), p)
  }

  /** The first of the matching records seen last, elements in the order in which each was first stored. */
  function LatestElement(log: seq<Entry>, selector: string, pageUrl: Option<string>): Option<ElementRecord> {
    var candidates := Gathered(log, Fold(log).elementIds, ForElement(selector, pageUrl));
    if candidates == [] then None else Some(FirstMax(candidates, ElementTime))
  }

  /** `elementIds` is the key order of the `elements` dictionary. */
  datatype Indexes = Indexes(
    executions: map<string, seq<ExecutionRecord>>,
    elements: map<string, seq<ElementRecord>>,
    elementIds: seq<string>,
    healing: map<string, seq<HealingRecord>>)

  function Lookup<V>(m: map<string, seq<V>>, key: string): seq<V> {
    if key in m then m[key] else []
  }

  function Add(x: Indexes, e: Entry): Indexes {
    match e
    case Execution(r) => x.(executions := x.executions[r.testId := Lookup(x.executions, r.testId) + [r]])
    case Element(r) =>
      x.(elements := x.elements[r.elementId := Lookup(x.elements, r.elementId) + [r]],
         elementIds := if r.elementId in x.elements then x.elementIds else x.elementIds + [r.elementId])
    case Healing(r) => x.(healing := x.healing[r.oldSelector := Lookup(x.healing, r.oldSelector) + [r]])
  }

  const EMPTY := Indexes(map[], map[], [], map[])

  function Fold(log: seq<Entry>): Indexes {
    if log == [] then EMPTY else Add(Fold(log[..|log| - 1]), log[|log| - 1])
  }

  lemma {:induction false} FoldLookup(log: seq<Entry>, key: string)
    ensures Lookup(Fold(log).executions, key) == ExecutionsOf(log, key)
    ensures Lookup(Fold(log).elements, key) == ElementsOf(log, key)
    ensures Lookup(Fold(log).healing, key) == HealingsOf(log, key)
  {
    if log != [] {
      FoldLookup(log[..|log| - 1], key);
    }
  }

  lemma {:induction false} FoldElementIds(log: seq<Entry>)
    ensures forall id :: id in Fold(log).elementIds <==> id in Fold(log).elements
  {
    if log != [] {
      FoldElementIds(log[..|log| - 1]);
    }
  }

  lemma {:induction false} ElementsOfMember(log: seq<Entry>, r: ElementRecord)
    ensures r in ElementsOf(log, r.elementId) <==> Element(r) in log
  {
    if log != [] {
      var init, last := log[..|log| - 1], log[|log| - 1];
      ElementsOfMember(init, r);
      assert log == init + [last];
      assert Element(r) in log <==> Element(r) in init || Element(r) == last;
    }
  }

  lemma {:induction false} ElementsOfIds(log: seq<Entry>, elementId: string)
    ensures forall r :: r in ElementsOf(log, elementId) ==> r.elementId == elementId
  {
    if log != [] {
      ElementsOfIds(log[..|log| - 1], elementId);
    }
  }

  lemma {:induction false} ExecutionsOfMember(log: seq<Entry>, testId: string, r: ExecutionRecord)
    ensures r in ExecutionsOf(log, testId) <==> Execution(r) in log && r.testId == testId
  {
    if log != [] {
      var init, last := log[..|log| - 1], log[|log| - 1];
      ExecutionsOfMember(init, testId, r);
      assert log == init + [last];
      assert Execution(r) in log <==> Execution(r) in init || Execution(r) == last;
    }
  }

  lemma {:induction false} HealingsOfMember(log: seq<Entry>, selector: string, r: HealingRecord)
    ensures r in HealingsOf(log, selector) <==> Healing(r) in log && r.oldSelector == selector
  {
    if log != [] {
      var init, last := log[..|log| - 1], log[|log| - 1];
      HealingsOfMember(init, selector, r);
      assert log == init + [last];
      assert Healing(r) in log <==> Healing(r) in init || Healing(r) == last;
    }
  }
}

/** The in-memory store (agents/memory/in_memory_store.py). */
module MemoryStore {
  import opened Sequences
  import opened WhiteSpace
  import opened MemoryRecords

  datatype TestContext = TestContext(
    executionCount: nat, passCount: nat, failCount: nat,
    latestExecution: Option<ExecutionRecord>, latestSuccess: Option<ExecutionRecord>,
    recentFailures: seq<ExecutionRecord>)

  class InMemoryStore {
    var executions: map<string, seq<ExecutionRecord>>
    var elements: map<string, seq<ElementRecord>>
    var elementIds: seq<string>
    var healing: map<string, seq<HealingRecord>>
    ghost var log: seq<Entry>  // everything stored since the last clear

    ghost predicate Valid()
      reads this
    {
      Indexes(executions, elements, elementIds, healing) == Fold(log)
    }

    constructor ()
      ensures Valid() && log == []
    {
      executions, elements, elementIds, healing := map[], map[], [], map[];
      log := [];
    }

    method StoreExecution(r: ExecutionRecord) returns (ok: bool)
      requires Valid()
      modifies this
      ensures Valid() && ok == Accepted(Execution(r))
      ensures log == if ok then old(log) + [Execution(r)] else old(log)
    {
      if Blank(r.executionId) || Blank(r.testId) || Blank(r.testName) {
        return false;
      }
      if r.testId !in executions {
        executions := executions[r.testId := []];
      }
      executions := executions[r.testId := executions[r.testId] + [r]];
      log := log + [Execution(r)];
      assert log[..|log| - 1] == old(log);
      return true;
    }

    method StoreElement(r: ElementRecord) returns (ok: bool)
      requires Valid()
      modifies this
      ensures Valid() && ok == Accepted(Element(r))
      ensures log == if ok then old(log) + [Element(r)] else old(log)
    {
      if Blank(r.elementId) || Blank(r.selector) {
        return false;
      }
      if r.elementId !in elements {
        elements := elements[r.elementId := []];
        elementIds := elementIds + [r.elementId];
      }
      elements := elements[r.elementId := elements[r.elementId] + [r]];
      log := log + [Element(r)];
      assert log[..|log| - 1] == old(log);
      return true;
    }

    method StoreHealingRecord(r: HealingRecord) returns (ok: bool)
      requires Valid()
      modifies this
      ensures Valid() && ok == Accepted(Healing(r))
      ensures log == if ok then old(log) + [Healing(r)] else old(log)
    {
      if Blank(r.healingId) || Blank(r.oldSelector) || Blank(r.newSelector) {
        return false;
      }
      if r.oldSelector !in healing {
        healing := healing[r.oldSelector := []];
      }
      healing := healing[r.oldSelector := healing[r.oldSelector] + [r]];
      log := log + [Healing(r)];
      assert log[..|log| - 1] == old(log);
      return true;
    }

    method Clear()
      modifies this
      ensures Valid() && log == []
    {
      executions, elements, elementIds, healing := map[], map[], [], map[];
      log := [];
    }

    function GetExecutionHistory(testId: string, limit: int): seq<ExecutionRecord>
      reads this
    {
      Limit(SortDesc(Lookup(executions, testId), ExecutionTime), limit)
    }

    function GetLatestSuccessfulExecution(testId: string): Option<ExecutionRecord>
      reads this
    {
      var passed := Filter(Lookup(executions, testId), IsPassed);
      if passed == [] then None else Some(FirstMax(passed, ExecutionTime))
    }

    function GetElementHistory(elementId: string): seq<ElementRecord>
      reads this
    {
      SortDesc(Lookup(elements, elementId), ElementTime)
    }

    /** The two nested loops over `self._elements.values()`, then `max`. */
    method GetElementBySelector(selector: string, pageUrl: Option<string>) returns (found: Option<ElementRecord>)
      requires Valid()
      ensures found == LatestElement(log, selector, pageUrl)
    {
      var candidates: seq<ElementRecord> := [];
      for i := 0 to |elementIds|
        invariant candidates == Gathered(log, elementIds[..i], ForElement(selector, pageUrl))
      {
        FoldLookup(log, elementIds[i]);
        FoldElementIds(log);
        assert elementIds[..i + 1][..i] == elementIds[..i];
        candidates := candidates + Filter(elements[elementIds[i]], ForElement(selector, pageUrl));
      }
      assert elementIds[..|elementIds|] == elementIds;
      return if candidates == [] then None else Some(FirstMax(candidates, ElementTime));
    }

    function GetFailureHistory(testId: string, limit: int): seq<ExecutionRecord>
      reads this
    {
      Limit(SortDesc(Filter(Lookup(executions, testId), IsFailure), ExecutionTime), limit)
    }

    function GetHealingHistory(selector: string, limit: int): seq<HealingRecord>
      reads this
    {
      Limit(SortDesc(Lookup(healing, selector), HealingTime), limit)
    }

    function GetHealingHistoryForReplacement(oldSelector: string, newSelector: string, limit: int): seq<HealingRecord>
      reads this
    {
      Limit(SortDesc(Filter(Lookup(healing, oldSelector), ForReplacement(newSelector)), HealingTime), limit)
    }

    function GetTestContext(testId: string): TestContext
      reads this
    {
      var all := Lookup(executions, testId);
      var sorted := SortDesc(all, ExecutionTime);
      TestContext(
        |all|, |Filter(all, IsPassed)|, |Filter(all, IsFailure)|,
        if sorted == [] then None else Some(sorted[0]),
        GetLatestSuccessfulExecution(testId), GetFailureHistory(testId, 5))
    }
  }

  // ---- Every query is a reading of the one log ----

  function Head<T>(s: seq<T>): Option<T> {
    if s == [] then None else Some(s[0])
  }

  lemma {:induction false} GatheredMember(log: seq<Entry>, ids: seq<string>, p: ElementRecord -> bool, r: ElementRecord)
    ensures r in Gathered(log, ids, p) <==> Element(r) in log && r.elementId in ids && p(r)
  {
    if ids != [] {
      var init, id := ids[..|ids| - 1], ids[|ids| - 1];
      GatheredMember(log, init, p, r);
      FilterMember(ElementsOf(log, id), p, r);
      ElementsOfMember(log, r);
      ElementsOfIds(log, id);
      assert r.elementId in ids <==> r.elementId in init || r.elementId == id;
    }
  }

  /** Stored with this selector, and on this page if one is asked for. */
  predicate SeenAt(log: seq<Entry>, selector: string, pageUrl: Option<string>, r: ElementRecord) {
    Element(r) in log && r.selector == selector && (pageUrl.Some? ==> r.pageUrl.Some? && r.pageUrl.value == pageUrl.value)
  }

  /** An element is found iff some stored one matches, and then one that was seen last of those. */
  lemma {:induction false} LatestElementIsLatest(log: seq<Entry>, selector: string, pageUrl: Option<string>)
    ensures var found := LatestElement(log, selector, pageUrl);
            && (found == None <==> forall r :: !SeenAt(log, selector, pageUrl, r))
            && (found.Some? ==> SeenAt(log, selector, pageUrl, found.value))
            && (found.Some? ==> forall r :: SeenAt(log, selector, pageUrl, r) ==> r.lastSeen <= found.value.lastSeen)
  {
    var ids, p := Fold(log).elementIds, ForElement(selector, pageUrl);
    var candidates := Gathered(log, ids, p);
    forall r ensures r in candidates <==> SeenAt(log, selector, pageUrl, r) {
      GatheredMember(log, ids, p, r);
      FoldElementIds(log);
      ElementsOfMember(log, r);
      FoldLookup(log, r.elementId);
    }
    if candidates != [] {
      FirstMaxIsMax(candidates, ElementTime);
      assert candidates[0] in candidates;
      assert forall r :: r in candidates ==> ElementTime(r) == r.lastSeen;
    }
  }

  /** An element's history is all that was stored of it, newest first. */
  lemma ElementHistoryFromLog(m: InMemoryStore, elementId: string)
    requires m.Valid()
    ensures m.GetElementHistory(elementId) == SortDesc(ElementsOf(m.log, elementId), ElementTime)
    ensures forall r :: r in m.GetElementHistory(elementId) <==> Element(r) in m.log && r.elementId == elementId
    ensures Descending(m.GetElementHistory(elementId), ElementTime)
  {
    FoldLookup(m.log, elementId);
    SortSorted(ElementsOf(m.log, elementId), ElementTime);
    forall r ensures r in m.GetElementHistory(elementId) <==> Element(r) in m.log && r.elementId == elementId {
      SortMember(ElementsOf(m.log, elementId), ElementTime, r);
      ElementsOfMember(m.log, r);
      ElementsOfIds(m.log, elementId);
    }
  }

  /** The latest success is the first PASSED entry of the full newest-first history. */
  lemma LatestSuccessIsFirstPassed(m: InMemoryStore, testId: string)
    requires m.Valid()
    ensures m.GetLatestSuccessfulExecution(testId) == Head(Filter(ExecutionHistory(m.log, testId), IsPassed))
  {
    var all := ExecutionsOf(m.log, testId);
    FoldLookup(m.log, testId);
    FilterSort(all, ExecutionTime, IsPassed);
    SortMultiset(Filter(all, IsPassed), ExecutionTime);
    if Filter(all, IsPassed) != [] {
      FirstMaxIsHead(Filter(all, IsPassed), ExecutionTime);
    }
  }

  /** The failure history is the first `limit` failures of the full history. */
  lemma FailuresAreFilteredHistory(m: InMemoryStore, testId: string, limit: int)
    requires m.Valid()
    ensures m.GetFailureHistory(testId, limit) == Limit(Filter(ExecutionHistory(m.log, testId), IsFailure), limit)
    ensures m.GetExecutionHistory(testId, limit) == Limit(ExecutionHistory(m.log, testId), limit)
  {
    FoldLookup(m.log, testId);
    FilterSort(ExecutionsOf(m.log, testId), ExecutionTime, IsFailure);
  }

  /** The history of a replacement pair is the first `limit` of the selector's history with that replacement. */
  lemma ReplacementsAreFilteredHistory(m: InMemoryStore, oldSelector: string, newSelector: string, limit: int)
    requires m.Valid()
    ensures m.GetHealingHistoryForReplacement(oldSelector, newSelector, limit)
         == Limit(Filter(HealingHistory(m.log, oldSelector), ForReplacement(newSelector)), limit)
    ensures m.GetHealingHistory(oldSelector, limit) == Limit(HealingHistory(m.log, oldSelector), limit)
  {
    FoldLookup(m.log, oldSelector);
    FilterSort(HealingsOf(m.log, oldSelector), HealingTime, ForReplacement(newSelector));
  }

  /** The summary of a test agrees with its history, entry by entry and count by count. */
  lemma TestContextFromHistory(m: InMemoryStore, testId: string)
    requires m.Valid()
    ensures var h, c := ExecutionHistory(m.log, testId), m.GetTestContext(testId);
            && c.executionCount == |h| && c.passCount == |Filter(h, IsPassed)| && c.failCount == |Filter(h, IsFailure)|
            && c.passCount + c.failCount <= c.executionCount
            && c.latestExecution == Head(h) && c.latestSuccess == Head(Filter(h, IsPassed))
            && c.recentFailures == Limit(Filter(h, IsFailure), 5)
  {
    var all := ExecutionsOf(m.log, testId);
    FoldLookup(m.log, testId);
    LatestSuccessIsFirstPassed(m, testId);
    FailuresAreFilteredHistory(m, testId, 5);
    SortMultiset(all, ExecutionTime);
    FilterSort(all, ExecutionTime, IsPassed);
    FilterSort(all, ExecutionTime, IsFailure);
    SortMultiset(Filter(all, IsPassed), ExecutionTime);
    SortMultiset(Filter(all, IsFailure), ExecutionTime);
    DisjointCounts(all);
  }

  lemma {:induction false} DisjointCounts(s: seq<ExecutionRecord>)
    ensures |Filter(s, IsPassed)| + |Filter(s, IsFailure)| <= |s|
  {
    if s != [] {
      DisjointCounts(s[1..]);
    }
  }

  // ---- The answers in terms of the records' fields ----

  predicate FailedRun(log: seq<Entry>, testId: string, r: ExecutionRecord) {
    Execution(r) in log && r.testId == testId && (r.status == FAILED || r.status == ERROR)
  }

  predicate HealedBy(log: seq<Entry>, oldSelector: string, newSelector: string, r: HealingRecord) {
    Healing(r) in log && r.oldSelector == oldSelector && r.newSelector == newSelector
  }

  /** The failures of a test: stored under its id with FAILED or ERROR, newest first, and the newest of all within a limit. */
  lemma {:induction false} FailuresByField(m: InMemoryStore, testId: string, limit: int)
    requires m.Valid()
    ensures var f := m.GetFailureHistory(testId, limit);
            && (forall r :: r in f ==> FailedRun(m.log, testId, r))
            && (forall i, j :: 0 <= i < j < |f| ==> f[i].timestamp >= f[j].timestamp)
            && (limit >= 0 ==> |f| <= limit)
            && (limit >= 0 ==> forall r :: FailedRun(m.log, testId, r) && r !in f ==>
                  |f| == limit && forall x :: x in f ==> x.timestamp >= r.timestamp)
  {
    var log := m.log;
    var all := ExecutionsOf(log, testId);
    FoldLookup(m.log, testId);
    forall r ensures r in Filter(all, IsFailure) <==> FailedRun(log, testId, r) {
      FilterMember(all, IsFailure, r);
      ExecutionsOfMember(log, testId, r);
    }
    LargestOf(Filter(all, IsFailure), ExecutionTime, limit, (r: ExecutionRecord) => FailedRun(log, testId, r));
    ByTimestamp(m.GetFailureHistory(testId, limit));
  }

  /** Descending by key is descending by the field. */
  lemma ByTimestamp(s: seq<ExecutionRecord>)
    requires Descending(s, ExecutionTime)
    ensures forall i, j :: 0 <= i < j < |s| ==> s[i].timestamp >= s[j].timestamp
  {
    forall i, j | 0 <= i < j < |s| ensures s[i].timestamp >= s[j].timestamp {
      assert ExecutionTime(s[i]) >= ExecutionTime(s[j]);
    }
  }

  lemma ByHealingTimestamp(s: seq<HealingRecord>)
    requires Descending(s, HealingTime)
    ensures forall i, j :: 0 <= i < j < |s| ==> s[i].timestamp >= s[j].timestamp
  {
    forall i, j | 0 <= i < j < |s| ensures s[i].timestamp >= s[j].timestamp {
      assert HealingTime(s[i]) >= HealingTime(s[j]);
    }
  }

  /** The latest success of a test: PASSED under its id and no other such one newer; none iff it never passed. */
  lemma {:induction false} LatestSuccessByField(m: InMemoryStore, testId: string)
    requires m.Valid()
    ensures var found := m.GetLatestSuccessfulExecution(testId);
            && (found == None <==> forall r :: Execution(r) in m.log && r.testId == testId ==> r.status != PASSED)
            && (found.Some? ==>
                  && Execution(found.value) in m.log && found.value.testId == testId && found.value.status == PASSED
                  && forall r :: Execution(r) in m.log && r.testId == testId && r.status == PASSED ==>
                       r.timestamp <= found.value.timestamp)
  {
    var all := ExecutionsOf(m.log, testId);
    var passed := Filter(all, IsPassed);
    FoldLookup(m.log, testId);
    forall r ensures r in passed <==> Execution(r) in m.log && r.testId == testId && r.status == PASSED {
      FilterMember(all, IsPassed, r);
      ExecutionsOfMember(m.log, testId, r);
    }
    if passed != [] {
      FirstMaxIsMax(passed, ExecutionTime);
      assert passed[0] in passed;
      assert forall r :: r in passed ==> ExecutionTime(r) == r.timestamp;
    }
  }

  /** The healings of a selector by one replacement: as stored, newest first, and the newest of all within a limit. */
  lemma {:induction false} ReplacementsByField(m: InMemoryStore, oldSelector: string, newSelector: string, limit: int)
    requires m.Valid()
    ensures var h := m.GetHealingHistoryForReplacement(oldSelector, newSelector, limit);
            && (forall r :: r in h ==> HealedBy(m.log, oldSelector, newSelector, r))
            && (forall i, j :: 0 <= i < j < |h| ==> h[i].timestamp >= h[j].timestamp)
            && (limit >= 0 ==> |h| <= limit)
            && (limit >= 0 ==> forall r :: HealedBy(m.log, oldSelector, newSelector, r) && r !in h ==>
                  |h| == limit && forall x :: x in h ==> x.timestamp >= r.timestamp)
  {
    var log := m.log;
    var all, p := HealingsOf(log, oldSelector), ForReplacement(newSelector);
    FoldLookup(m.log, oldSelector);
    forall r ensures r in Filter(all, p) <==> HealedBy(log, oldSelector, newSelector, r) {
      FilterMember(all, p, r);
      HealingsOfMember(log, oldSelector, r);
    }
    LargestOf(Filter(all, p), HealingTime, limit, (r: HealingRecord) => HealedBy(log, oldSelector, newSelector, r));
    ByHealingTimestamp(m.GetHealingHistoryForReplacement(oldSelector, newSelector, limit));
  }

  /** The counts of a test's summary are the numbers of its stored runs with such a status. */
  lemma {:induction false} CountsByField(m: InMemoryStore, testId: string)
    requires m.Valid()
    ensures var runs, c := ExecutionsOf(m.log, testId), m.GetTestContext(testId);
            && c.executionCount == |runs|
            && c.passCount == |set i | 0 <= i < |runs| && runs[i].status == PASSED|
            && c.failCount == |set i | 0 <= i < |runs| && (runs[i].status == FAILED || runs[i].status == ERROR)|
  {
    var runs := ExecutionsOf(m.log, testId);
    FoldLookup(m.log, testId);
    FilterCounts(runs, IsPassed);
    FilterCounts(runs, IsFailure);
    assert Passing(runs, IsPassed) == set i | 0 <= i < |runs| && runs[i].status == PASSED;
    assert Passing(runs, IsFailure) == set i | 0 <= i < |runs| && (runs[i].status == FAILED || runs[i].status == ERROR);
  }

  /** All healings of a selector, in the same way. */
  lemma {:induction false} HealingsByField(m: InMemoryStore, selector: string, limit: int)
    requires m.Valid()
    ensures var h := m.GetHealingHistory(selector, limit);
            && (forall r :: r in h ==> Healing(r) in m.log && r.oldSelector == selector)
            && (forall i, j :: 0 <= i < j < |h| ==> h[i].timestamp >= h[j].timestamp)
            && (limit >= 0 ==> |h| <= limit)
            && (limit >= 0 ==> forall r :: Healing(r) in m.log && r.oldSelector == selector && r !in h ==>
                  |h| == limit && forall x :: x in h ==> x.timestamp >= r.timestamp)
  {
    var log := m.log;
    var all := HealingsOf(log, selector);
    FoldLookup(m.log, selector);
    forall r ensures r in all <==> Healing(r) in log && r.oldSelector == selector {
      HealingsOfMember(log, selector, r);
    }
    LargestOf(all, HealingTime, limit, (r: HealingRecord) => Healing(r) in log && r.oldSelector == selector);
    ByHealingTimestamp(m.GetHealingHistory(selector, limit));
  }
}
