/** The per-user sliding-window rate limit kept in process memory (backend/ratelimit.py). */
module RateLimit {
  import opened Sequences

  const WINDOW_SECONDS: real := 60.0

  datatype Verdict = Allowed | TooMany(retryAfter: int)

  /** Python's `int(x)`: towards zero. */
  function Truncate(x: real): int {
    if x >= 0.0 then x.Floor else -((-x).Floor)
  }

  function Young(now: real): real -> bool {
    t => now - t < WINDOW_SECONDS
  }

  function InWindow(w: real): real -> bool {
    t => w <= t < w + WINDOW_SECONDS
  }

  function RetryAfter(oldest: real, now: real): int {
    var r := Truncate(WINDOW_SECONDS - (now - oldest)) + 1;
    if r < 1 then 1 else r
  }

  /** The deque after its expired head has been popped. */
  function Prune(starts: seq<real>, now: real): seq<real> {
    if starts != [] && now - starts[0] >= WINDOW_SECONDS then Prune(starts[1..], now) else starts
  }

  /** One call on one user's deque: the new deque and the answer. */
  function Decide(starts: seq<real>, now: real, budget: nat): (seq<real>, Verdict)
    requires budget > 0
  {
    var kept := Prune(starts, now);
    if |kept| >= budget then (kept, TooMany(RetryAfter(kept[0], now))) else (kept + [now], Allowed)
  }

  class RateLimiter {
    var starts: map<string, seq<real>>

    function Queue(uid: string): seq<real>
      reads this
    {
      if uid in starts then starts[uid] else []
    }

    /** The body under the lock.  Only this user's deque changes. */
    method LimitRuns(uid: string, budget: int, now: real) returns (v: Verdict)
      modifies this
      ensures budget <= 0 ==> v == Allowed && starts == old(starts)
      ensures budget > 0 ==>
        var (q, w) := Decide(old(Queue(uid)), now, budget);
        v == w && starts == old(starts)[uid := q]
    {
      if budget <= 0 {
        return Allowed;
      }
      var queue := Queue(uid);
      while queue != [] && now - queue[0] >= WINDOW_SECONDS
        invariant Prune(queue, now) == Prune(Queue(uid), now)
        decreases |queue|
      {
        queue := queue[1..];
      }
      if |queue| >= budget {
        starts := starts[uid := queue];
        return TooMany(RetryAfter(queue[0], now));
      }
      starts := starts[uid := queue + [now]];
      return Allowed;
    }
  }

  // ---- One user's calls, as clock readings in lock order ----

  datatype Account = Account(queue: seq<real>, admitted: seq<real>)

  function Serve(a: Account, now: real, budget: nat): Account
    requires budget > 0
  {
    var (q, v) := Decide(a.queue, now, budget);
    Account(q, if v == Allowed then a.admitted + [now] else a.admitted)
  }

  function Run(calls: seq<real>, budget: nat): Account
    requires budget > 0
  {
    if calls == [] then Account([], [])
    else Serve(Run(calls[..|calls| - 1], budget), calls[|calls| - 1], budget)
  }

  /** The answer to one more call. */
  function Answer(calls: seq<real>, now: real, budget: nat): Verdict
    requires budget > 0
  {
    Decide(Run(calls, budget).queue, now, budget).1
  }

  /** The reference: keep every admitted start for ever and count the young ones. */
  function NaiveLog(calls: seq<real>, budget: nat): seq<real> {
    if calls == [] then []
    else
      var log := NaiveLog(calls[..|calls| - 1], budget);
      var now := calls[|calls| - 1];
      if |Filter(log, Young(now))| < budget then log + [now] else log
  }

  ghost predicate InOrder(calls: seq<real>) {
    forall i, j :: 0 <= i < j < |calls| ==> calls[i] <= calls[j]
  }

  /** Every entry found fewer than `budget` young ones before it. */
  ghost predicate Gated(log: seq<real>, budget: nat) {
    forall i :: 0 <= i < |log| ==> |Filter(log[..i], Young(log[i]))| < budget
  }

  /** Less than 60 seconds apart: some window holds both. */
  function Near(a: real): real -> bool {
    t => -WINDOW_SECONDS < t - a < WINDOW_SECONDS
  }

  /** Every entry found fewer than `budget` near ones before it. */
  ghost predicate Sparse(log: seq<real>, budget: nat) {
    forall i :: 0 <= i < |log| ==> |Filter(log[..i], Near(log[i]))| < budget
  }

  /** A sparse log, in whatever order, never holds more than `budget` starts in any 60-second window. */
  lemma {:induction false} WindowBound(log: seq<real>, budget: nat, w: real)
    requires Sparse(log, budget)
    ensures |Filter(log, InWindow(w))| <= budget
  {
    if log != [] {
      var n := |log| - 1;
      var before, last := log[..n], log[n];
      forall i | 0 <= i < n ensures |Filter(before[..i], Near(before[i]))| < budget {
        assert before[..i] == log[..i];
      }
      WindowBound(before, budget, w);
      assert log == before + [last];
      FilterAppend(before, [last], InWindow(w));
      if InWindow(w)(last) {
        assert |Filter(log[..n], Near(log[n]))| < budget;
        FilterMonotone(before, InWindow(w), Near(last));
      }
    }
  }

  lemma {:induction false} NaiveLogGated(calls: seq<real>, budget: nat)
    ensures Gated(NaiveLog(calls, budget), budget)
  {
    if calls != [] {
      NaiveLogGated(calls[..|calls| - 1], budget);
      var log := NaiveLog(calls[..|calls| - 1], budget);
      var next := NaiveLog(calls, budget);
      forall i | 0 <= i < |next| ensures |Filter(next[..i], Young(next[i]))| < budget {
        assert next[..i] == log[..i];
        if i == |log| {
          assert log[..i] == log;
        }
      }
    }
  }

  lemma InOrderAppend(log: seq<real>, now: real)
    requires InOrder(log) && forall t :: t in log ==> t <= now
    ensures InOrder(log + [now])
  {
    assert forall i :: 0 <= i < |log| ==> log[i] in log;
  }

  lemma {:induction false} NaiveLogOrder(calls: seq<real>, budget: nat)
    requires InOrder(calls)
    ensures InOrder(NaiveLog(calls, budget))
    ensures forall t :: t in NaiveLog(calls, budget) ==> t in calls
  {
    if calls != [] {
      var init, now := calls[..|calls| - 1], calls[|calls| - 1];
      NaiveLogOrder(init, budget);
      forall t | t in NaiveLog(init, budget) ensures t <= now && t in calls {
        var k :| 0 <= k < |init| && init[k] == t;
        assert calls[k] == t;
      }
      InOrderAppend(NaiveLog(init, budget), now);
      assert now == calls[|init|] && now in calls;
    }
  }

  /** On a log in order, popping the expired head is exactly keeping the young entries. */
  lemma {:induction false} PruneIsFilter(log: seq<real>, now: real)
    requires InOrder(log)
    ensures Prune(log, now) == Filter(log, Young(now))
  {
    if log != [] {
      PruneIsFilter(log[1..], now);
      if Young(now)(log[0]) {
        assert Prune(log[1..], now) == log[1..];
      }
    }
  }

  /** What was too old before is too old now. */
  lemma {:induction false} PruneTwice(log: seq<real>, before: real, now: real)
    requires before <= now
    ensures Prune(Prune(log, before), now) == Prune(log, now)
  {
    if log != [] && before - log[0] >= WINDOW_SECONDS {
      PruneTwice(log[1..], before, now);
    }
  }

  lemma PruneAppend(log: seq<real>, now: real)
    ensures Prune(log + [now], now) == Prune(log, now) + [now]
  {
    if log == [] {
      assert log + [now] == [now];
    } else if now - log[0] >= WINDOW_SECONDS {
      PruneAppend(log[1..], now);
      assert (log + [now])[1..] == log[1..] + [now];
    }
  }

  /**
   * Refinement.  When calls take the lock in clock order, the pruned deque is exactly the
   * user's admitted starts younger than 60 s, and the admitted starts are those of the reference.
   */
  lemma {:induction false} DequeRefinesLog(calls: seq<real>, budget: nat)
    requires budget > 0 && InOrder(calls)
    ensures Run(calls, budget).admitted == NaiveLog(calls, budget)
    ensures calls != [] ==>
      Run(calls, budget).queue == Filter(NaiveLog(calls, budget), Young(calls[|calls| - 1]))
    ensures calls == [] ==> Run(calls, budget).queue == []
  {
    if calls != [] {
      var init, now := calls[..|calls| - 1], calls[|calls| - 1];
      DequeRefinesLog(init, budget);
      NaiveLogOrder(init, budget);
      NaiveLogOrder(calls, budget);
      var log := NaiveLog(init, budget);
      PruneIsFilter(log, now);
      PruneIsFilter(NaiveLog(calls, budget), now);
      if init != [] {
        PruneIsFilter(log, init[|init| - 1]);
        PruneTwice(log, init[|init| - 1], now);
      }
      assert Prune(Run(init, budget).queue, now) == Filter(log, Young(now));
      PruneAppend(log, now);
      PruneTwice(log, now, now);
    }
  }

  /** So the answers agree too: a call is admitted iff fewer than `budget` admitted starts are younger than 60 s. */
  lemma AnswerMatchesLog(calls: seq<real>, now: real, budget: nat)
    requires budget > 0 && InOrder(calls + [now])
    ensures var young := Filter(NaiveLog(calls, budget), Young(now));
            && (Answer(calls, now, budget) == Allowed <==> |young| < budget)
            && |young| <= budget
            && (|young| >= budget ==> Answer(calls, now, budget) == TooMany(RetryAfter(young[0], now)))
  {
    forall i, j | 0 <= i < j < |calls| ensures calls[i] <= calls[j] {
      assert (calls + [now])[i] <= (calls + [now])[j];
    }
    DequeRefinesLog(calls, budget);
    NaiveLogOrder(calls, budget);
    var log := NaiveLog(calls, budget);
    PruneIsFilter(log, now);
    if calls != [] {
      var last := calls[|calls| - 1];
      assert last == (calls + [now])[|calls| - 1] && now == (calls + [now])[|calls|];
      PruneIsFilter(log, last);
      PruneTwice(log, last, now);
    }
    NaiveLogGated(calls, budget);
    YoungBound(log, budget, now);
  }

  /** The young entries at any moment also number at most `budget`. */
  lemma {:induction false} YoungBound(log: seq<real>, budget: nat, now: real)
    requires Gated(log, budget) && forall t :: t in log ==> t <= now
    ensures |Filter(log, Young(now))| <= budget
  {
    if log != [] {
      var n := |log| - 1;
      var before, last := log[..n], log[n];
      forall i | 0 <= i < n ensures |Filter(before[..i], Young(before[i]))| < budget {
        assert before[..i] == log[..i];
      }
      assert last in log && forall t :: t in before ==> t in log;
      YoungBound(before, budget, now);
      assert log == before + [last];
      FilterAppend(before, [last], Young(now));
      if Young(now)(last) {
        assert |Filter(log[..n], Young(log[n]))| < budget;
        FilterMonotone(before, Young(now), Young(last));
      }
    }
  }

  // ---- The window bound, and exactly when it holds ----

  /** No reading comes near one that an earlier reading already saw as 60 s old. */
  ghost predicate NoReturn(readings: seq<real>) {
    forall i, j, k :: 0 <= i < j < k < |readings| && readings[j] - readings[i] >= WINDOW_SECONDS ==>
      !Near(readings[i])(readings[k])
  }

  /** Clock order is enough. */
  lemma InOrderNeverReturns(readings: seq<real>)
    requires InOrder(readings)
    ensures NoReturn(readings)
  {
    forall i, j, k | 0 <= i < j < k < |readings| && readings[j] - readings[i] >= WINDOW_SECONDS
      ensures !Near(readings[i])(readings[k])
    {
      assert readings[j] <= readings[k];
    }
  }

  lemma NoReturnAt(readings: seq<real>, i: nat, j: nat, k: nat)
    requires NoReturn(readings) && i < j < k < |readings|
    ensures readings[j] - readings[i] >= WINDOW_SECONDS ==> !Near(readings[i])(readings[k])
  {
  }

  lemma NoReturnPrefix(readings: seq<real>, n: nat)
    requires NoReturn(readings) && n <= |readings|
    ensures NoReturn(readings[..n])
  {
  }

  /** A start that a later call saw as 60 s old. */
  ghost predicate Outlived(calls: seq<real>, t: real) {
    exists i, j :: 0 <= i < j < |calls| && calls[i] == t && calls[j] - calls[i] >= WINDOW_SECONDS
  }

  lemma OutlivedLonger(calls: seq<real>, t: real)
    requires calls != [] && Outlived(calls[..|calls| - 1], t)
    ensures Outlived(calls, t)
    ensures NoReturn(calls) ==> !Near(calls[|calls| - 1])(t)
  {
    var init := calls[..|calls| - 1];
    var i, j :| 0 <= i < j < |init| && init[i] == t && init[j] - init[i] >= WINDOW_SECONDS;
    assert calls[i] == t && calls[j] == init[j];
    if NoReturn(calls) {
      assert !Near(calls[i])(calls[|calls| - 1]);
    }
  }

  lemma {:induction false} PruneDrops(queue: seq<real>, now: real) returns (dropped: seq<real>)
    ensures queue == dropped + Prune(queue, now) && forall t :: t in dropped ==> now - t >= WINDOW_SECONDS
  {
    if queue != [] && now - queue[0] >= WINDOW_SECONDS {
      dropped := PruneDrops(queue[1..], now);
      dropped := [queue[0]] + dropped;
    } else {
      dropped := [];
    }
  }

  lemma {:induction false} NoneNear(log: seq<real>, now: real)
    requires forall t :: t in log ==> !Near(now)(t)
    ensures Filter(log, Near(now)) == []
  {
    if log != [] {
      assert log[0] in log && forall t :: t in log[1..] ==> t in log;
      NoneNear(log[1..], now);
    }
  }

  /** The admitted starts are sparse: those gone from the deque were outlived, the others are in it. */
  ghost predicate SparseAccount(calls: seq<real>, a: Account, gone: seq<real>, budget: nat) {
    && a.admitted == gone + a.queue && Sparse(a.admitted, budget)
    && (forall t :: t in a.admitted ==> t in calls) && (forall t :: t in gone ==> Outlived(calls, t))
  }

  lemma ServeIsSparse(calls: seq<real>, a: Account, before: seq<real>, budget: nat) returns (gone: seq<real>)
    requires budget > 0 && calls != [] && NoReturn(calls) && SparseAccount(calls[..|calls| - 1], a, before, budget)
    ensures SparseAccount(calls, Serve(a, calls[|calls| - 1], budget), gone, budget)
  {
    var init, now := calls[..|calls| - 1], calls[|calls| - 1];
    assert calls == init + [now];
    var dropped := PruneDrops(a.queue, now);
    var kept := Prune(a.queue, now);
    gone := before + dropped;
    assert a.admitted == gone + kept && forall t :: t in dropped ==> t in a.admitted;
    GoneIsFar(calls, before, dropped);
    if |kept| < budget {
      AdmittedIsSparse(gone, kept, now, budget);
      assert a.admitted + [now] == gone + (kept + [now]);
    }
  }

  lemma {:induction false} RunIsSparse(calls: seq<real>, budget: nat) returns (gone: seq<real>)
    requires budget > 0 && NoReturn(calls)
    ensures SparseAccount(calls, Run(calls, budget), gone, budget)
  {
    gone := [];
    if calls != [] {
      NoReturnPrefix(calls, |calls| - 1);
      var before := RunIsSparse(calls[..|calls| - 1], budget);
      gone := ServeIsSparse(calls, Run(calls[..|calls| - 1], budget), before, budget);
    }
  }

  lemma GoneIsFar(calls: seq<real>, before: seq<real>, dropped: seq<real>)
    requires calls != [] && NoReturn(calls)
    requires forall t :: t in before ==> Outlived(calls[..|calls| - 1], t)
    requires forall t :: t in dropped ==> t in calls[..|calls| - 1] && calls[|calls| - 1] - t >= WINDOW_SECONDS
    ensures forall t :: t in before + dropped ==> Outlived(calls, t) && !Near(calls[|calls| - 1])(t)
  {
    var init := calls[..|calls| - 1];
    forall t | t in before + dropped ensures Outlived(calls, t) && !Near(calls[|calls| - 1])(t) {
      if t in before {
        OutlivedLonger(calls, t);
      } else {
        var i :| 0 <= i < |init| && init[i] == t;
        assert calls[i] == t;
      }
    }
  }

  lemma AdmittedIsSparse(gone: seq<real>, kept: seq<real>, now: real, budget: nat)
    requires Sparse(gone + kept, budget) && |kept| < budget && forall t :: t in gone ==> !Near(now)(t)
    ensures Sparse(gone + kept + [now], budget)
  {
    FilterAppend(gone, kept, Near(now));
    NoneNear(gone, now);
    FilterLength(kept, Near(now));
    SparseAppend(gone + kept, now, budget);
  }

  lemma SparseAppend(log: seq<real>, now: real, budget: nat)
    requires Sparse(log, budget) && |Filter(log, Near(now))| < budget
    ensures Sparse(log + [now], budget)
  {
    var next := log + [now];
    forall i | 0 <= i < |next| ensures |Filter(next[..i], Near(next[i]))| < budget {
      assert next[..i] == log[..i];
      if i == |log| {
        assert log[..i] == log;
      }
    }
  }

  /** The limit itself: no half-open 60-second window ever holds more than `budget` admitted starts. */
  lemma AdmittedWindowBound(calls: seq<real>, budget: nat, w: real)
    requires budget > 0 && NoReturn(calls)
    ensures |Filter(Run(calls, budget).admitted, InWindow(w))| <= budget
  {
    var _ := RunIsSparse(calls, budget);
    WindowBound(Run(calls, budget).admitted, budget, w);
  }

  /** Calls made at these readings, in this order, any number of them at each. */
  ghost predicate Drawn(calls: seq<real>, readings: seq<real>, from: seq<nat>) {
    && |from| == |calls| && (forall m, n :: 0 <= m < n < |from| ==> from[m] <= from[n])
    && (forall m :: 0 <= m < |from| ==> from[m] < |readings| && calls[m] == readings[from[m]])
  }

  /** However the calls fall on these readings and whatever the budget, no window is overrun. */
  ghost predicate Safe(readings: seq<real>) {
    forall calls, from, budget: nat, w ::
      budget > 0 && Drawn(calls, readings, from) ==> |Filter(Run(calls, budget).admitted, InWindow(w))| <= budget
  }

  lemma DrawnNeverReturns(calls: seq<real>, readings: seq<real>, from: seq<nat>)
    requires NoReturn(readings) && Drawn(calls, readings, from)
    ensures NoReturn(calls)
  {
    forall i, j, k | 0 <= i < j < k < |calls| && calls[j] - calls[i] >= WINDOW_SECONDS
      ensures !Near(calls[i])(calls[k])
    {
      assert from[i] <= from[j] <= from[k];
      if from[i] < from[j] && from[j] < from[k] {
        assert !Near(readings[from[i]])(readings[from[k]]);
      }
    }
  }

  lemma NoReturnIsSafe(readings: seq<real>)
    requires NoReturn(readings)
    ensures Safe(readings)
  {
    forall calls, from, budget: nat, w | budget > 0 && Drawn(calls, readings, from)
      ensures |Filter(Run(calls, budget).admitted, InWindow(w))| <= budget
    {
      DrawnNeverReturns(calls, readings, from);
      AdmittedWindowBound(calls, budget, w);
    }
  }

  lemma ReturnIsNotSafe(readings: seq<real>, i: nat, j: nat, k: nat)
    requires i < j < k < |readings| && readings[j] - readings[i] >= WINDOW_SECONDS
    requires Near(readings[i])(readings[k])
    ensures !Safe(readings)
  {
    var calls := [readings[i], readings[i], readings[j], readings[k]];
    ReturnBreaksBound(readings[i], readings[j], readings[k]);
    assert Drawn(calls, readings, [i, i, j, k]);
  }

  /** The clock readings for which the limiter keeps its promise are exactly those with no return. */
  lemma SafeIffNoReturn(readings: seq<real>)
    ensures Safe(readings) <==> NoReturn(readings)
  {
    if NoReturn(readings) {
      NoReturnIsSafe(readings);
    } else {
      var i, j, k :| 0 <= i < j < k < |readings| && readings[j] - readings[i] >= WINDOW_SECONDS
                     && Near(readings[i])(readings[k]);
      ReturnIsNotSafe(readings, i, j, k);
    }
  }

  lemma PrefixInOrder(calls: seq<real>, n: nat)
    requires InOrder(calls) && n <= |calls|
    ensures InOrder(calls[..n])
  {
    forall i, j | 0 <= i < j < n ensures calls[..n][i] <= calls[..n][j] {
      assert calls[i] <= calls[j];
    }
  }

  /** When the oldest of a full window turns 60 s old, and not before, there is room again. */
  lemma RoomAfter(log: seq<real>, now: real, d: real)
    requires InOrder(log) && d >= 0.0 && Filter(log, Young(now)) != []
    ensures var young := Filter(log, Young(now));
            |Filter(log, Young(now + d))| < |young| <==> now + d - young[0] >= WINDOW_SECONDS
  {
    var young := Filter(log, Young(now));
    PruneIsFilter(log, now);
    PruneIsFilter(log, now + d);
    PruneTwice(log, now, now + d);
    assert Filter(log, Young(now + d)) == Prune(young, now + d);
    if now + d - young[0] >= WINDOW_SECONDS {
      PruneShrinks(young[1..], now + d);
    }
  }

  lemma RetryAfterRange(oldest: real, now: real)
    requires 0.0 <= now - oldest < WINDOW_SECONDS
    ensures var r := RetryAfter(oldest, now);
            1 <= r <= 61 && (r - 1) as real <= WINDOW_SECONDS - (now - oldest) < r as real
  {
  }

  /**
   * Retry-After.  A refusal names r in 1..61 whole seconds.  With no admission in between, a
   * call d seconds later is admitted iff d reaches the remaining life of the oldest start, which
   * lies in [r - 1, r): waiting r always works.
   */
  lemma RetryAfterIsSufficient(calls: seq<real>, now: real, between: seq<real>, d: real, budget: nat)
    requires budget > 0 && d >= 0.0
    requires InOrder(calls + [now] + between + [now + d])
    requires Answer(calls, now, budget).TooMany?
    requires NaiveLog(calls + [now] + between, budget) == NaiveLog(calls, budget)
    ensures 1 <= Answer(calls, now, budget).retryAfter <= 61
    ensures var r := Answer(calls, now, budget).retryAfter;
            var later := Answer(calls + [now] + between, now + d, budget);
            (d >= r as real ==> later == Allowed) && (d < (r - 1) as real ==> later != Allowed)
  {
    var later := calls + [now] + between;
    var all := later + [now + d];
    PrefixInOrder(all, |calls| + 1);
    assert all[..|calls| + 1] == calls + [now];
    PrefixInOrder(calls + [now], |calls|);
    assert (calls + [now])[..|calls|] == calls;
    AnswerMatchesLog(calls, now, budget);
    AnswerMatchesLog(later, now + d, budget);
    NaiveLogOrder(calls, budget);
    var log := NaiveLog(calls, budget);
    var oldest := Filter(log, Young(now))[0];
    FilterMember(log, Young(now), oldest);
    var k :| 0 <= k < |calls| && calls[k] == oldest;
    assert (calls + [now])[k] <= (calls + [now])[|calls|];
    RetryAfterRange(oldest, now);
    RoomAfter(log, now, d);
  }

  lemma {:induction false} PruneShrinks(log: seq<real>, now: real)
    ensures |Prune(log, now)| <= |log|
  {
    if log != [] {
      PruneShrinks(log[1..], now);
    }
  }

  lemma RunStep(calls: seq<real>, now: real, budget: nat)
    requires budget > 0
    ensures Run(calls + [now], budget) == Serve(Run(calls, budget), now, budget)
  {
    assert (calls + [now])[..|calls|] == calls;
  }

  /** Two starts, a reading that sees them as 60 s old, and one that comes near them again: three in a window of two. */
  lemma ReturnBreaksBound(x: real, y: real, z: real)
    requires y - x >= WINDOW_SECONDS && Near(x)(z)
    ensures |Filter(Run([x, x, y, z], 2).admitted, InWindow(if x <= z then x else z))| == 3
  {
    assert [x, x, y, z] == [x] + [x] + [y] + [z] && [] + [x] == [x];
    RunStep([], x, 2);
    RunStep([x], x, 2);
    RunStep([x] + [x], y, 2);
    RunStep([x] + [x] + [y], z, 2);
    assert [x] + [x] == [x, x] && [x, x][1..] == [x] && [x][1..] == [];
    assert Prune([x, x], y) == Prune([x], y) == Prune([], y) == [];
    assert Serve(Account([x, x], [x, x]), y, 2) == Account([] + [y], [x, x] + [y]);
    var w := InWindow(if x <= z then x else z);
    FilterAppend([x, x], [y, z], w);
    assert Run([x, x, y, z], 2).admitted == [x, x] + [y, z];
    assert Filter([z], w) == [z] && Filter([x], w) == [x];
  }

  // ---- The same in seconds ----

  function UnderAMinute(now: real): real -> bool {
    t => now - t < 60.0
  }

  function Minute(w: real): real -> bool {
    t => w <= t < w + 60.0
  }

  /** The starts of a row that are less than a minute old. */
  function LastMinute(row: seq<real>, now: real): seq<real> {
    Filter(row, UnderAMinute(now))
  }

  /** The wait is the time until the earliest of these starts is a minute old, in whole seconds and rounded up past it. */
  ghost predicate WaitsFor(recent: seq<real>, now: real, wait: int) {
    exists first :: first in recent && (forall t :: t in recent ==> first <= t)
                    && 60.0 - (now - first) < wait as real <= 60.0 - (now - first) + 1.0
  }

  lemma YoungIsLastMinute(row: seq<real>, now: real)
    ensures Filter(row, Young(now)) == LastMinute(row, now)
  {
    FilterAgree(row, Young(now), UnderAMinute(now));
  }

  lemma EarliestWaits(row: seq<real>, now: real, first: real)
    requires first in LastMinute(row, now) && forall t :: t in LastMinute(row, now) ==> first <= t
    ensures WaitsFor(LastMinute(row, now), now, RetryAfter(first, now))
  {
    FilterMember(row, UnderAMinute(now), first);
  }

  lemma {:induction false} FirstIsLeast(log: seq<real>, now: real)
    requires InOrder(log) && LastMinute(log, now) != []
    ensures var recent := LastMinute(log, now);
            recent[0] in log && forall t :: t in recent ==> recent[0] <= t
  {
    assert forall t :: t in log[1..] ==> t in log && log[0] <= t;
    forall t ensures t in LastMinute(log[1..], now) ==> t in log[1..] {
      FilterMember(log[1..], UnderAMinute(now), t);
    }
    if now - log[0] >= 60.0 {
      assert forall i, j :: 0 <= i < j < |log[1..]| ==> log[1..][i] == log[i + 1] && log[1..][j] == log[j + 1];
      FirstIsLeast(log[1..], now);
    }
  }

  /**
   * Calls in clock order: the next one is admitted iff fewer than `budget` admitted starts are under a minute old, and
   * otherwise told to wait for the earliest of these; what was admitted is kept in order.
   */
  lemma {:induction false} AnswerPerMinute(calls: seq<real>, now: real, budget: nat)
    requires budget > 0 && InOrder(calls + [now])
    ensures var log := Run(calls, budget).admitted;
            var recent, answer := LastMinute(log, now), Answer(calls, now, budget);
            && (answer == Allowed <==> |recent| < budget)
            && (answer != Allowed ==> WaitsFor(recent, now, answer.retryAfter))
            && Run(calls + [now], budget).admitted == if |recent| < budget then log + [now] else log
  {
    var log := NaiveLog(calls, budget);
    PrefixInOrder(calls + [now], |calls|);
    assert (calls + [now])[..|calls|] == calls;
    DequeRefinesLog(calls, budget);
    AnswerMatchesLog(calls, now, budget);
    YoungIsLastMinute(log, now);
    RunStep(calls, now, budget);
    if |LastMinute(log, now)| >= budget {
      NaiveLogOrder(calls, budget);
      FirstIsLeast(log, now);
      EarliestWaits(log, now, LastMinute(log, now)[0]);
    }
  }

  /** Calls in clock order: at most `budget` are admitted in any minute. */
  lemma AdmittedPerMinute(calls: seq<real>, budget: nat, w: real)
    requires budget > 0 && InOrder(calls)
    ensures |Filter(Run(calls, budget).admitted, Minute(w))| <= budget
  {
    InOrderNeverReturns(calls);
    AdmittedWindowBound(calls, budget, w);
    FilterAgree(Run(calls, budget).admitted, InWindow(w), Minute(w));
  }
}
