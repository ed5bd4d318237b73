/**
 * The pipeline run queue (backend/worker.py): workers that claim runs, heartbeats, and reapers of
 * stale runs, one store operation per step, in any interleaving.
 */
module WorkQueue {
  import opened Sequences

  datatype Status = Queued | Running | Error | Passed | Failed | Cancelled

  /** A stored ISO time stamp: absent, not parsable, or a time. */
  datatype Stamp = Missing | Unreadable(raw: string) | At(time: real)

  datatype Doc = Doc(status: Status, worker: Option<nat>, startedAt: Stamp, heartbeatAt: Stamp)

  /** `present` records which runs were in the store when the worker took its snapshot. */
  datatype Worker =
    | Idle
    | Scanning(queue: seq<nat>, pos: nat, present: set<nat>)
    | Executing(id: nat)

  datatype Row = Row(id: nat, startedAt: Stamp, heartbeatAt: Stamp)

  /** `stale` is the reaper's WORKER_STALE_SECONDS, read from its own environment unchecked. */
  datatype Reaper = Off | Sweeping(now: real, stale: real, rows: seq<Row>, pos: nat)

  datatype Claim = Claim(worker: nat, id: nat)

  /** `claims` is the history of successful claims; `published` the ids whose document was ever created. */
  datatype State = State(
    docs: map<nat, Doc>,
    nextId: nat,
    published: set<nat>,
    workers: map<nat, Worker>,
    reapers: map<nat, Reaper>,
    claims: seq<Claim>)

  /** Ids are allocated and documents created in two operations, so documents may appear out of order. */
  datatype Action =
    | Allocate
    | Publish(id: nat)
    | Delete(id: nat)
    | FindQueued(w: nat, found: seq<nat>)
    | TryClaim(w: nat, stamp: real)
    | Beat(w: nat, stamp: real)
    | Done(w: nat)
    | Write(id: nat, status: Status)
    | FindRunning(r: nat, now: real, stale: real, found: seq<nat>)
    | TryReap(r: nat)

  function Parse(stamp: Stamp): Option<real> {
    if stamp.At? then Some(stamp.time) else None
  }

  /** `_parse(heartbeat_at) or _parse(started_at)` */
  function LastSeen(row: Row): Option<real> {
    if Parse(row.heartbeatAt).Some? then Parse(row.heartbeatAt) else Parse(row.startedAt)
  }

  function WorkerAt(s: State, w: nat): Worker {
    if w in s.workers then s.workers[w] else Idle
  }

  function ReaperAt(s: State, r: nat): Reaper {
    if r in s.reapers then s.reapers[r] else Off
  }

  ghost predicate Lists(s: State, status: Status, found: seq<nat>) {
    Distinct(found) && forall id :: id in found <==> id in s.docs && s.docs[id].status == status
  }

  function ById(id: nat): real {
    -(id as real)
  }

  /** One turn of the claim loop. */
  function ClaimTurn(s: State, w: nat, k: Worker, stamp: real): State
    requires k.Scanning?
  {
    if k.pos >= |k.queue| then s.(workers := s.workers[w := Idle])
    else
      var id := k.queue[k.pos];
      if id in s.docs && s.docs[id].status == Queued then
        s.(docs := s.docs[id := Doc(Running, Some(w), At(stamp), At(stamp))],
           workers := s.workers[w := Executing(id)],
           claims := s.claims + [Claim(w, id)])
      else s.(workers := s.workers[w := k.(pos := k.pos + 1)])
  }

  /** One turn of the reap loop: skip a live row, else compare-and-set on the heartbeat that was read. */
  function ReapTurn(s: State, r: nat, k: Reaper): State
    requires k.Sweeping?
  {
    if k.pos >= |k.rows| then s.(reapers := s.reapers[r := Off])
    else
      var row := k.rows[k.pos];
      var next := s.(reapers := s.reapers[r := k.(pos := k.pos + 1)]);
      if LastSeen(row).Some? && k.now - LastSeen(row).value < k.stale then next
      else if row.id in s.docs && s.docs[row.id].heartbeatAt == row.heartbeatAt
      then next.(docs := s.docs[row.id := s.docs[row.id].(status := Error)])
      else next
  }

  function RowOf(s: State): nat -> Row {
    (id: nat) => if id in s.docs then Row(id, s.docs[id].startedAt, s.docs[id].heartbeatAt) else Row(id, Missing, Missing)
  }

  /** One step; an action that is not enabled changes nothing. */
  ghost function Step(s: State, a: Action): State {
    match a
    case Allocate => s.(nextId := s.nextId + 1)
    case Publish(id) =>
      if id < s.nextId && id !in s.published
      then s.(docs := s.docs[id := Doc(Queued, None, Missing, Missing)], published := s.published + {id}) else s
    case Delete(id) => s.(docs := s.docs - {id})
    case FindQueued(w, found) =>
      if WorkerAt(s, w).Idle? && Lists(s, Queued, found)
      then s.(workers := s.workers[w := Scanning(SortDesc(found, ById), 0, s.docs.Keys)]) else s
    case TryClaim(w, stamp) =>
      if WorkerAt(s, w).Scanning? then ClaimTurn(s, w, WorkerAt(s, w), stamp) else s
    case Beat(w, stamp) =>
      if WorkerAt(s, w).Executing? && WorkerAt(s, w).id in s.docs
      then s.(docs := s.docs[WorkerAt(s, w).id := s.docs[WorkerAt(s, w).id].(heartbeatAt := At(stamp))]) else s
    case Done(w) =>
      if WorkerAt(s, w).Executing? then s.(workers := s.workers[w := Idle]) else s
    case Write(id, status) =>
      if id in s.docs && status != Queued then s.(docs := s.docs[id := s.docs[id].(status := status)]) else s
    case FindRunning(r, now, stale, found) =>
      if ReaperAt(s, r).Off? && Lists(s, Running, found)
      then s.(reapers := s.reapers[r := Sweeping(now, stale, Map(found, RowOf(s)), 0)]) else s
    case TryReap(r) =>
      if ReaperAt(s, r).Sweeping? then ReapTurn(s, r, ReaperAt(s, r)) else s
  }

  const START: State := State(map[], 0, {}, map[], map[], [])

  ghost function Exec(actions: seq<Action>): State {
    if actions == [] then START
    else Step(Exec(actions[..|actions| - 1]), actions[|actions| - 1])
  }

  // ---- The invariant ----

  /** Created at some point and not queued any more. */
  ghost predicate Settled(s: State, id: nat) {
    id in s.published && (id in s.docs ==> s.docs[id].status != Queued)
  }

  ghost predicate Ascending(q: seq<nat>) {
    forall i, j :: 0 <= i < j < |q| ==> q[i] < q[j]
  }

  ghost predicate ScanOk(s: State, k: Worker)
    requires k.Scanning?
  {
    && k.pos <= |k.queue| && Ascending(k.queue)
    && (forall id :: id in k.queue ==> id in k.present)
    && (forall id :: id in k.present ==> id in s.published)
    && (forall id :: id in k.present && id !in k.queue[k.pos..] ==> Settled(s, id))
  }

  ghost predicate ClaimsOk(s: State) {
    && (forall i, j :: 0 <= i < j < |s.claims| ==> s.claims[i].id != s.claims[j].id)
    && (forall i :: 0 <= i < |s.claims| ==> Settled(s, s.claims[i].id))
  }

  ghost predicate Invariant(s: State) {
    && s.docs.Keys <= s.published
    && ClaimsOk(s)
    && (forall w :: w in s.workers && s.workers[w].Scanning? ==> ScanOk(s, s.workers[w]))
  }

  /** Nothing ever goes back to `queued`. */
  lemma SettledStays(s: State, a: Action, id: nat)
    requires Settled(s, id)
    ensures Settled(Step(s, a), id)
  {
  }

  lemma SnapshotOk(s: State, w: nat, found: seq<nat>)
    requires s.docs.Keys <= s.published && Lists(s, Queued, found)
    ensures ScanOk(s, Scanning(SortDesc(found, ById), 0, s.docs.Keys))
  {
    var q := SortDesc(found, ById);
    SortSorted(found, ById);
    SortDistinct(found, ById);
    forall id ensures id in q <==> id in found {
      SortMember(found, ById, id);
    }
    forall i, j | 0 <= i < j < |q| ensures q[i] < q[j] {
      assert ById(q[i]) >= ById(q[j]);
    }
  }

  lemma ScanStays(s: State, a: Action, k: Worker)
    requires k.Scanning? && ScanOk(s, k)
    requires s.published <= Step(s, a).published
    ensures ScanOk(Step(s, a), k)
  {
    forall id | id in k.present && id !in k.queue[k.pos..] ensures Settled(Step(s, a), id) {
      SettledStays(s, a, id);
    }
  }

  /** The scan moves on only past a run that is no longer queued. */
  lemma ScanAdvances(s: State, w: nat, stamp: real)
    requires Invariant(s) && WorkerAt(s, w).Scanning?
    requires WorkerAt(Step(s, TryClaim(w, stamp)), w).Scanning?
    ensures ScanOk(Step(s, TryClaim(w, stamp)), WorkerAt(Step(s, TryClaim(w, stamp)), w))
  {
    var k := s.workers[w];
    assert ScanOk(s, k);
    assert k.queue[k.pos..] == [k.queue[k.pos]] + k.queue[k.pos + 1..];
  }

  lemma ClaimsStay(s: State, a: Action)
    requires Invariant(s)
    ensures ClaimsOk(Step(s, a))
  {
    var s' := Step(s, a);
    forall i | 0 <= i < |s.claims| ensures Settled(s', s.claims[i].id) {
      SettledStays(s, a, s.claims[i].id);
    }
    if s'.claims != s.claims {
      var k := s.workers[a.w];
      assert ScanOk(s, k);
      assert k.queue[k.pos] in k.present;
    }
  }

  lemma StepKeepsInvariant(s: State, a: Action)
    requires Invariant(s)
    ensures Invariant(Step(s, a))
  {
    var s' := Step(s, a);
    assert s'.docs.Keys <= s'.published && s.published <= s'.published;
    ClaimsStay(s, a);
    forall w | w in s'.workers && s'.workers[w].Scanning? ensures ScanOk(s', s'.workers[w]) {
      if w in s.workers && s.workers[w] == s'.workers[w] {
        ScanStays(s, a, s.workers[w]);
      } else if a.FindQueued? {
        SnapshotOk(s, w, a.found);
      } else {
        ScanAdvances(s, w, a.stamp);
      }
    }
  }

  lemma {:induction false} ExecInvariant(actions: seq<Action>)
    ensures Invariant(Exec(actions))
  {
    if actions != [] {
      ExecInvariant(actions[..|actions| - 1]);
      StepKeepsInvariant(Exec(actions[..|actions| - 1]), actions[|actions| - 1]);
    }
  }

  // ---- Main results, for every interleaving ----

  /** No run is ever claimed twice, whatever the workers, heartbeats, reapers and cancellations do. */
  lemma ClaimedAtMostOnce(actions: seq<Action>)
    ensures var claims := Exec(actions).claims;
            forall i, j :: 0 <= i < j < |claims| ==> claims[i].id != claims[j].id
  {
    ExecInvariant(actions);
  }

  /** Queue order: when a worker claims a run, every older run that was in the store at its snapshot has left `queued`. */
  lemma OldestFirst(actions: seq<Action>, w: nat, stamp: real)
    requires WorkerAt(Exec(actions), w).Scanning?
    requires var s, s' := Exec(actions), Step(Exec(actions), TryClaim(w, stamp)); s'.claims != s.claims
    ensures var s, s' := Exec(actions), Step(Exec(actions), TryClaim(w, stamp));
            && |s'.claims| == |s.claims| + 1 && s'.claims[|s.claims|].worker == w
            && var id := s'.claims[|s.claims|].id;
            && id in s.docs && s.docs[id].status == Queued
            && s'.docs[id] == Doc(Running, Some(w), At(stamp), At(stamp))
            && (forall older :: older in s.workers[w].present && older < id ==> Settled(s, older))
  {
    ExecInvariant(actions);
    var s := Exec(actions);
    var k := s.workers[w];
    assert ScanOk(s, k);
    forall older | older in k.present && older < k.queue[k.pos] ensures Settled(s, older) {
      assert older !in k.queue[k.pos..];
    }
  }

  /** A worker comes back empty only when every run in the store at its snapshot has left `queued`. */
  lemma EmptyScanMeansNothingQueued(actions: seq<Action>, w: nat, stamp: real)
    requires WorkerAt(Exec(actions), w).Scanning?
    requires WorkerAt(Step(Exec(actions), TryClaim(w, stamp)), w).Idle?
    ensures forall id :: id in WorkerAt(Exec(actions), w).present ==> Settled(Exec(actions), id)
  {
    ExecInvariant(actions);
    var s := Exec(actions);
    assert ScanOk(s, s.workers[w]);
  }

  /**
   * What one turn of a reaper does, exactly: it marks the row `error` iff the row was stale or unreadable
   * when read and its stored heartbeat is still the one read.  So when the heartbeat stored at the
   * moment of the write is readable, it is at least the reaper's limit older than the reaper's clock.
   */
  lemma {:induction false} ReapIsExact(s: State, r: nat)
    requires ReaperAt(s, r).Sweeping? && ReaperAt(s, r).pos < |ReaperAt(s, r).rows|
    ensures var k, s' := ReaperAt(s, r), Step(s, TryReap(r));
            var row := k.rows[k.pos];
            var stale := LastSeen(row).None? || k.now - LastSeen(row).value >= k.stale;
            if stale && row.id in s.docs && s.docs[row.id].heartbeatAt == row.heartbeatAt then
              && s'.docs == s.docs[row.id := s.docs[row.id].(status := Error)]
              && (s.docs[row.id].heartbeatAt.At? ==> k.now - s.docs[row.id].heartbeatAt.time >= k.stale)
            else s'.docs == s.docs
  {
  }

  // ---- A run whose worker keeps beating is never reaped ----

  /** The action stamps the run's heartbeat: the claim, or a beat of the worker that executes it. */
  ghost predicate Stamps(s: State, a: Action, id: nat) {
    match a
    case Beat(w, _) => WorkerAt(s, w) == Executing(id) && id in s.docs
    case TryClaim(w, _) =>
      var k := WorkerAt(s, w);
      k.Scanning? && k.pos < |k.queue| && k.queue[k.pos] == id && id in s.docs && s.docs[id].status == Queued
    case _ => false
  }

  /** When the run's heartbeat was last stamped. */
  ghost function LastBeat(actions: seq<Action>, id: nat): Option<real> {
    if actions == [] then None
    else
      var init, a := actions[..|actions| - 1], actions[|actions| - 1];
      if Stamps(Exec(init), a, id) then Some(a.stamp) else LastBeat(init, id)
  }

  /** Whenever a reaper lists the running runs, this one, if running, was stamped less than its limit before. */
  ghost predicate Punctual(actions: seq<Action>, id: nat) {
    forall n :: 0 <= n < |actions| && actions[n].FindRunning? ==>
      BeatAt(actions[..n], actions[n].now, actions[n].stale, id)
  }

  ghost predicate BeatAt(actions: seq<Action>, now: real, stale: real, id: nat) {
    var docs := Exec(actions).docs;
    id in docs && docs[id].status == Running ==> LastBeat(actions, id).Some? && now - LastBeat(actions, id).value < stale
  }

  /** The run, if it is in the store, bears the stamp. */
  ghost predicate Bears(s: State, id: nat, beat: Option<real>) {
    beat.Some? ==> id in s.published && (id in s.docs ==> s.docs[id].heartbeatAt == At(beat.value))
  }

  lemma StepBears(s: State, a: Action, id: nat, beat: Option<real>)
    requires Invariant(s) && Bears(s, id, beat)
    ensures Bears(Step(s, a), id, if Stamps(s, a, id) then Some(a.stamp) else beat)
  {
  }

  lemma {:induction false} HeartbeatIsLastBeat(actions: seq<Action>, id: nat)
    ensures Bears(Exec(actions), id, LastBeat(actions, id))
  {
    if actions != [] {
      HeartbeatIsLastBeat(actions[..|actions| - 1], id);
      ExecInvariant(actions[..|actions| - 1]);
      StepBears(Exec(actions[..|actions| - 1]), actions[|actions| - 1], id, LastBeat(actions[..|actions| - 1], id));
    }
  }

  /** Every listing of the run that a reaper still works through found it fresh. */
  ghost predicate ListedFresh(s: State, id: nat) {
    forall r :: r in s.reapers && s.reapers[r].Sweeping? ==> RowsFresh(s.reapers[r], id)
  }

  ghost predicate RowsFresh(k: Reaper, id: nat)
    requires k.Sweeping?
  {
    forall i :: 0 <= i < |k.rows| && k.rows[i].id == id ==>
      LastSeen(k.rows[i]).Some? && k.now - LastSeen(k.rows[i]).value < k.stale
  }

  lemma ListingIsFresh(actions: seq<Action>, now: real, stale: real, found: seq<nat>, id: nat)
    requires BeatAt(actions, now, stale, id) && Lists(Exec(actions), Running, found)
    ensures RowsFresh(Sweeping(now, stale, Map(found, RowOf(Exec(actions))), 0), id)
  {
    HeartbeatIsLastBeat(actions, id);
  }

  lemma StepListsFresh(actions: seq<Action>, a: Action, id: nat)
    requires ListedFresh(Exec(actions), id)
    requires a.FindRunning? ==> BeatAt(actions, a.now, a.stale, id)
    ensures ListedFresh(Step(Exec(actions), a), id)
  {
    if a.FindRunning? && Lists(Exec(actions), Running, a.found) {
      ListingIsFresh(actions, a.now, a.stale, a.found, id);
    }
  }

  lemma {:induction false} PunctualListings(actions: seq<Action>, id: nat)
    requires Punctual(actions, id)
    ensures ListedFresh(Exec(actions), id)
  {
    if actions != [] {
      var n := |actions| - 1;
      var init, a := actions[..n], actions[n];
      forall m | 0 <= m < n && init[m].FindRunning? ensures BeatAt(init[..m], init[m].now, init[m].stale, id) {
        assert init[..m] == actions[..m];
      }
      PunctualListings(init, id);
      assert a.FindRunning? ==> BeatAt(init, a.now, a.stale, id);
      StepListsFresh(init, a, id);
    }
  }

  /**
   * Over any run of the queue, no reaper's turn touches a run that was stamped less than the reaper's limit before
   * each listing; so a worker that beats more often than every reaper's limit keeps its run.
   */
  lemma {:induction false} NeverReaped(actions: seq<Action>, id: nat, r: nat)
    requires Punctual(actions, id)
    ensures var s := Exec(actions);
            var s' := Exec(actions + [TryReap(r)]);
            (id in s'.docs <==> id in s.docs) && (id in s.docs ==> s'.docs[id] == s.docs[id])
  {
    PunctualListings(actions, id);
    ExecStep(actions, TryReap(r));
  }

  // ---- Turns that nothing interrupts ----

  /** A worker at rest that finds queued runs claims the oldest of them, with one stamp in both places. */
  lemma {:induction false} QuietClaim(s: State, w: nat, found: seq<nat>, stamp: real) returns (id: nat)
    requires WorkerAt(s, w).Idle? && Lists(s, Queued, found) && found != []
    ensures id in s.docs && s.docs[id].status == Queued
    ensures forall other :: other in s.docs && s.docs[other].status == Queued ==> id <= other
    ensures var after := Step(Step(s, FindQueued(w, found)), TryClaim(w, stamp));
            && after.docs == s.docs[id := Doc(Running, Some(w), At(stamp), At(stamp))]
            && after.workers == s.workers[w := Executing(id)] && after.claims == s.claims + [Claim(w, id)]
            && after.reapers == s.reapers
  {
    var q := SortDesc(found, ById);
    SortSorted(found, ById);
    SortMultiset(found, ById);
    id := q[0];
    forall x ensures x in q <==> x in found {
      SortMember(found, ById, x);
    }
    assert id in q;
    forall other | other in found ensures id <= other {
      var i :| 0 <= i < |q| && q[i] == other;
      assert i > 0 ==> ById(q[0]) >= ById(q[i]);
    }
    var scanning := Scanning(q, 0, s.docs.Keys);
    assert s.workers[w := scanning][w := Executing(id)] == s.workers[w := Executing(id)];
  }

  /** With nothing queued it goes back to rest and touches nothing. */
  lemma {:induction false} QuietEmptyScan(s: State, w: nat, stamp: real)
    requires WorkerAt(s, w).Idle? && Lists(s, Queued, [])
    ensures var after := Step(Step(s, FindQueued(w, [])), TryClaim(w, stamp));
            after == s.(workers := s.workers[w := Idle])
  {
    var scanning := Scanning([], 0, s.docs.Keys);
    assert s.workers[w := scanning][w := Idle] == s.workers[w := Idle];
  }

  /** A beat stamps the run being executed, if it is still there, and nothing else; an end puts the worker at rest. */
  lemma BeatsItsRun(s: State, w: nat, id: nat, stamp: real)
    requires WorkerAt(s, w) == Executing(id)
    ensures Step(s, Beat(w, stamp))
         == if id in s.docs then s.(docs := s.docs[id := s.docs[id].(heartbeatAt := At(stamp))]) else s
    ensures Step(s, Done(w)) == s.(workers := s.workers[w := Idle])
  {
  }

  /** The run was last heard of at least `stale` seconds ago, or never: by its heartbeat, or else by its start. */
  predicate Silent(d: Doc, now: real, stale: real) {
    match d.heartbeatAt
    case At(t) => now - t >= stale
    case _ => (match d.startedAt case At(t) => now - t >= stale case _ => true)
  }

  ghost function Turns(s: State, r: nat, n: nat): State {
    if n == 0 then s else Step(Turns(s, r, n - 1), TryReap(r))
  }

  /** The documents once the silent ones among these runs are marked. */
  ghost predicate Marked(before: map<nat, Doc>, after: map<nat, Doc>, ids: seq<nat>, now: real, stale: real) {
    && after.Keys == before.Keys
    && forall id :: id in before ==>
         after[id] == if id in ids && Silent(before[id], now, stale) then before[id].(status := Error) else before[id]
  }

  lemma ReapOne(s: State, r: nat, k: Reaper, id: nat)
    requires k.Sweeping? && k.pos < |k.rows| && ReaperAt(s, r) == k && id in s.docs
    requires k.rows[k.pos] == Row(id, s.docs[id].startedAt, s.docs[id].heartbeatAt)
    ensures Step(s, TryReap(r)).docs
         == if Silent(s.docs[id], k.now, k.stale) then s.docs[id := s.docs[id].(status := Error)] else s.docs
    ensures Step(s, TryReap(r)).reapers == s.reapers[r := k.(pos := k.pos + 1)]
    ensures Step(s, TryReap(r)).workers == s.workers && Step(s, TryReap(r)).claims == s.claims
  {
  }

  lemma MarkedOneMore(before: map<nat, Doc>, now: real, stale: real, mid: map<nat, Doc>, ids: seq<nat>, id: nat)
    requires Marked(before, mid, ids, now, stale) && id in before && id !in ids
    ensures var after := if Silent(before[id], now, stale) then mid[id := mid[id].(status := Error)] else mid;
            Marked(before, after, ids + [id], now, stale)
  {
  }

  /** The rows are what the documents of these runs say. */
  ghost predicate RowsOf(rows: seq<Row>, ids: seq<nat>, docs: map<nat, Doc>) {
    && |rows| == |ids| && Distinct(ids)
    && forall i :: 0 <= i < |ids| ==>
         ids[i] in docs && rows[i] == Row(ids[i], docs[ids[i]].startedAt, docs[ids[i]].heartbeatAt)
  }

  /** The reaper k, come to its n-th row, and the documents marked so far. */
  ghost predicate SweptTo(docs: map<nat, Doc>, s: State, r: nat, k: Reaper, ids: seq<nat>, n: nat)
    requires k.Sweeping? && n <= |ids|
  {
    ReaperAt(s, r) == k.(pos := n) && Marked(docs, s.docs, ids[..n], k.now, k.stale)
  }

  lemma SweepStep(docs: map<nat, Doc>, s: State, r: nat, k: Reaper, ids: seq<nat>, n: nat)
    requires k.Sweeping? && RowsOf(k.rows, ids, docs) && n < |ids| && SweptTo(docs, s, r, k, ids, n)
    ensures SweptTo(docs, Step(s, TryReap(r)), r, k, ids, n + 1)
  {
    var id := ids[n];
    assert ids[..n + 1] == ids[..n] + [id] && id !in ids[..n];
    assert s.docs[id] == docs[id];
    ReapOne(s, r, k.(pos := n), id);
    MarkedOneMore(docs, k.now, k.stale, s.docs, ids[..n], id);
  }

  lemma {:induction false} SweepTurns(s: State, r: nat, k: Reaper, ids: seq<nat>, n: nat)
    requires k.Sweeping? && RowsOf(k.rows, ids, s.docs) && n <= |ids| && SweptTo(s.docs, s, r, k, ids, 0)
    ensures SweptTo(s.docs, Turns(s, r, n), r, k, ids, n)
  {
    if n > 0 {
      SweepTurns(s, r, k, ids, n - 1);
      SweepStep(s.docs, Turns(s, r, n - 1), r, k, ids, n - 1);
    }
  }

  /** A sweep without interruption marks as errors exactly the running runs that are silent. */
  lemma {:induction false} QuietSweep(s: State, r: nat, now: real, stale: real, found: seq<nat>)
    requires ReaperAt(s, r).Off? && Lists(s, Running, found)
    ensures var after := Turns(Step(s, FindRunning(r, now, stale, found)), r, |found|).docs;
            && after.Keys == s.docs.Keys
            && forall id :: id in s.docs ==>
                 after[id] == if s.docs[id].status == Running && Silent(s.docs[id], now, stale)
                              then s.docs[id].(status := Error) else s.docs[id]
  {
    SweepTurns(Step(s, FindRunning(r, now, stale, found)), r, Sweeping(now, stale, Map(found, RowOf(s)), 0), found, |found|);
    assert found[..|found|] == found;
  }

  // ---- The reaper can overwrite a run that finished after it was read ----

  lemma ExecStep(actions: seq<Action>, a: Action)
    ensures Exec(actions + [a]) == Step(Exec(actions), a)
  {
    assert (actions + [a])[..|actions|] == actions;
  }

  /** The states of one run of the queue, up to the moment before the reaper writes. */
  ghost function Story(n: nat, stale: real): State
    requires n <= 6
  {
    if n == 0 then START
    else if n == 1 then START.(nextId := 1)
    else if n == 2 then State(map[0 := Doc(Queued, None, Missing, Missing)], 1, {0}, map[], map[], [])
    else if n == 3 then Story(2, stale).(workers := map[0 := Scanning([0], 0, {0})])
    else if n == 4 then
      State(map[0 := Doc(Running, Some(0), At(0.0), At(0.0))], 1, {0}, map[0 := Executing(0)], map[], [Claim(0, 0)])
    else if n == 5 then Story(4, stale).(reapers := map[0 := Sweeping(stale, stale, [Row(0, At(0.0), At(0.0))], 0)])
    else Story(5, stale).(docs := map[0 := Doc(Passed, Some(0), At(0.0), At(0.0))])
  }

  ghost function StoryAction(n: nat, stale: real): Action
    requires n < 6
  {
    [Allocate, Publish(0), FindQueued(0, [0]), TryClaim(0, 0.0), FindRunning(0, stale, stale, [0]), Write(0, Passed)][n]
  }

  lemma StoryStep(n: nat, stale: real)
    requires n < 6
    ensures Step(Story(n, stale), StoryAction(n, stale)) == Story(n + 1, stale)
  {
    if n == 2 {
      StoryFind(stale);
    } else if n == 4 {
      StorySweep(stale);
    }
  }

  lemma StoryFind(stale: real)
    ensures Step(Story(2, stale), StoryAction(2, stale)) == Story(3, stale)
  {
    var s := Story(2, stale);
    var only: seq<nat> := [0];
    assert Lists(s, Queued, only);
    assert SortDesc(only[1..], ById) == [] && SortDesc(only, ById) == only;
    assert s.docs.Keys == {0};
  }

  lemma StorySweep(stale: real)
    ensures Step(Story(4, stale), StoryAction(4, stale)) == Story(5, stale)
  {
    var s := Story(4, stale);
    var only: seq<nat> := [0];
    assert Lists(s, Running, only);
    assert Map(only, RowOf(s)) == [Row(0, At(0.0), At(0.0))];
  }

  lemma {:induction false} StoryRun(n: nat, stale: real) returns (actions: seq<Action>)
    requires n <= 6
    ensures Exec(actions) == Story(n, stale)
  {
    actions := [];
    if n > 0 {
      actions := StoryRun(n - 1, stale);
      ExecStep(actions, StoryAction(n - 1, stale));
      StoryStep(n - 1, stale);
      actions := actions + [StoryAction(n - 1, stale)];
    }
  }

  /** The compare-and-set guards the heartbeat, not the status: at any limit a run that has passed can turn to error. */
  lemma FinishedRunCanBeReaped(stale: real) returns (actions: seq<Action>)
    ensures 0 in Exec(actions).docs && Exec(actions).docs[0].status == Passed
    ensures 0 in Exec(actions + [TryReap(0)]).docs && Exec(actions + [TryReap(0)]).docs[0].status == Error
  {
    actions := StoryRun(6, stale);
    ExecStep(actions, TryReap(0));
    ReapIsExact(Story(6, stale), 0);
  }
}

/** The worker's polling loop (`work`, `next_poll`). */
module WorkerPolling {
  import opened Sequences
  import opened Rounding

  /** WORKER_POLL_SECONDS, WORKER_IDLE_POLL_SECONDS and WORKER_REAP_SECONDS, read from the environment unchecked. */
  datatype Settings = Settings(poll: real, idlePoll: real, reap: real)

  /**
   * One turn: the clock as read to see whether a sweep is due, as read again to note it, and whether a run was
   * claimed (no, too, when the store is unavailable).
   */
  datatype Turn = Turn(time: real, noted: real, found: bool)

  function NextPoll(idle: real, cfg: Settings): real {
    Min(Max(idle * 2.0, cfg.poll), Max(cfg.idlePoll, cfg.poll))
  }

  /** x times 2 to the power k. */
  function Doubled(x: real, k: nat): real {
    if k == 0 then x else 2.0 * Doubled(x, k - 1)
  }

  /** The wait after k empty polls in a row, in closed form. */
  function Backoff(k: nat, cfg: Settings): real {
    Min(Max(Doubled(cfg.poll, k), cfg.poll), Max(cfg.idlePoll, cfg.poll))
  }

  lemma {:induction false} DoubledMovesAway(x: real, k: nat)
    ensures x >= 0.0 ==> Doubled(x, k) >= x
    ensures x <= 0.0 ==> Doubled(x, k) <= x
  {
    if k > 0 {
      DoubledMovesAway(x, k - 1);
    }
  }

  /** For every configuration the doubling rule yields the closed form, from the first poll on. */
  lemma {:induction false} NextPollIsBackoff(k: nat, cfg: Settings)
    ensures Backoff(0, cfg) == cfg.poll
    ensures NextPoll(Backoff(k, cfg), cfg) == Backoff(k + 1, cfg)
  {
    DoubledMovesAway(cfg.poll, k);
  }

  /** How many of the first n turns found nothing since the last that did. */
  function Streak(turns: seq<Turn>, n: nat): nat
    requires n <= |turns|
  {
    if n == 0 || turns[n - 1].found then 0 else Streak(turns, n - 1) + 1
  }

  /** The waits of the first n turns: after each empty one, the back-off for the empty turns just before it. */
  function Waits(turns: seq<Turn>, n: nat, cfg: Settings): seq<real>
    requires n <= |turns|
  {
    if n == 0 then []
    else
      var before := Waits(turns, n - 1, cfg);
      if turns[n - 1].found then before else before + [Backoff(Streak(turns, n - 1), cfg)]
  }

  /** When the last of the sweeps was noted. */
  function LastNoted(turns: seq<Turn>, sweeps: seq<nat>): Option<real>
    requires forall j :: 0 <= j < |sweeps| ==> sweeps[j] < |turns|
  {
    if sweeps == [] then None else Some(turns[sweeps[|sweeps| - 1]].noted)
  }

  /** None stands for minus infinity. */
  predicate Due(turn: Turn, last: Option<real>, cfg: Settings) {
    last.None? || turn.time - last.value >= cfg.reap
  }

  /** The turns among the first n that sweep for stale runs: the first, and each one long enough after the last. */
  function Sweeps(turns: seq<Turn>, n: nat, cfg: Settings): (sweeps: seq<nat>)
    requires n <= |turns|
    ensures forall j :: 0 <= j < |sweeps| ==> sweeps[j] < n
  {
    if n == 0 then []
    else
      var before := Sweeps(turns, n - 1, cfg);
      if Due(turns[n - 1], LastNoted(turns, before), cfg) then before + [n - 1] else before
  }

  /** The loop itself, for any settings. */
  method Work(turns: seq<Turn>, cfg: Settings) returns (waits: seq<real>, sweeps: seq<nat>)
    ensures waits == Waits(turns, |turns|, cfg)
    ensures sweeps == Sweeps(turns, |turns|, cfg)
  {
    waits, sweeps := [], [];
    var wait := cfg.poll;
    var lastReap: Option<real> := None;
    NextPollIsBackoff(0, cfg);
    for i := 0 to |turns|
      invariant waits == Waits(turns, i, cfg) && wait == Backoff(Streak(turns, i), cfg)
      invariant sweeps == Sweeps(turns, i, cfg) && lastReap == LastNoted(turns, sweeps)
    {
      NextPollIsBackoff(Streak(turns, i), cfg);
      if Due(turns[i], lastReap, cfg) {
        lastReap := Some(turns[i].noted);
        sweeps := sweeps + [i];
      }
      if turns[i].found {
        wait := cfg.poll;
      } else {
        waits := waits + [wait];
        wait := NextPoll(wait, cfg);
      }
    }
  }

  /** Turn i was swept at, or a sweep before it is too recent. */
  ghost predicate Covered(turns: seq<Turn>, sweeps: seq<nat>, i: nat, cfg: Settings)
    requires i < |turns| && forall j :: 0 <= j < |sweeps| ==> sweeps[j] < |turns|
  {
    i in sweeps || exists j :: 0 <= j < |sweeps| && sweeps[j] < i && turns[i].time - turns[sweeps[j]].noted < cfg.reap
  }

  ghost predicate Spaced(turns: seq<Turn>, sweeps: seq<nat>, cfg: Settings)
    requires forall j :: 0 <= j < |sweeps| ==> sweeps[j] < |turns|
  {
    forall j :: 0 < j < |sweeps| ==>
      sweeps[j - 1] < sweeps[j] && turns[sweeps[j]].time - turns[sweeps[j - 1]].noted >= cfg.reap
  }

  /** Sweeps are in turn order and keep their distance. */
  lemma {:induction false} SweepsAreSpaced(turns: seq<Turn>, n: nat, cfg: Settings)
    requires n <= |turns|
    ensures Spaced(turns, Sweeps(turns, n, cfg), cfg)
  {
    if n > 0 {
      SweepsAreSpaced(turns, n - 1, cfg);
    }
  }

  lemma CoveredLonger(turns: seq<Turn>, before: seq<nat>, sweeps: seq<nat>, i: nat, cfg: Settings)
    requires i < |turns| && before <= sweeps
    requires forall j :: 0 <= j < |sweeps| ==> sweeps[j] < |turns|
    requires forall j :: 0 <= j < |before| ==> before[j] < |turns|
    requires Covered(turns, before, i, cfg)
    ensures Covered(turns, sweeps, i, cfg)
  {
    if i !in before {
      var j :| 0 <= j < |before| && before[j] < i && turns[i].time - turns[before[j]].noted < cfg.reap;
      assert sweeps[j] == before[j];
    }
  }

  /** Every turn sweeps, or has a sweep shortly before it. */
  lemma {:induction false} SweepsCoverTurns(turns: seq<Turn>, n: nat, cfg: Settings, i: nat)
    requires i < n <= |turns|
    ensures Covered(turns, Sweeps(turns, n, cfg), i, cfg)
  {
    var before, sweeps := Sweeps(turns, n - 1, cfg), Sweeps(turns, n, cfg);
    if i < n - 1 {
      SweepsCoverTurns(turns, n - 1, cfg, i);
      CoveredLonger(turns, before, sweeps, i, cfg);
    } else if sweeps == before {
      assert turns[i].time - turns[sweeps[|sweeps| - 1]].noted < cfg.reap;
    } else {
      assert sweeps[|before|] == i;
    }
  }
}
