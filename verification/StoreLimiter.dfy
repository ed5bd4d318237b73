/**
 * The rate limit shared through the store (`_limit_in_store`, backend/ratelimit.py): any number of
 * concurrent calls on one user's row, one store or clock operation per step, in any interleaving.
 */
module StoreLimiter {
  import opened Sequences
  import opened RateLimit

  const ATTEMPTS: nat := 5

  /** Where one call stands.  `tries` counts its finished compare-and-sets, `since` the commits before it began. */
  datatype Call =
    | Looping(tries: nat, since: nat)
    | Timed(tries: nat, since: nat, now: real)
    | Loaded(tries: nat, since: nat, now: real, seen: seq<real>, version: nat)
    | Admitted(tries: nat, now: real)
    | Full(tries: nat, retryAfter: int)
    | Contended(tries: nat, since: nat, retryAfter: int)

  datatype Commit = Commit(call: nat, now: real)

  /** `commits` is the history of successful compare-and-sets; the code keeps only `row`. */
  datatype State = State(row: seq<real>, calls: map<nat, Call>, commits: seq<Commit>)

  datatype Action = Begin(c: nat) | ReadClock(c: nat, now: real) | ReadRow(c: nat) | Finish(c: nat)

  function Earliest(s: seq<real>): real
    requires s != []
  {
    if |s| == 1 then s[0] else if s[0] <= Earliest(s[1..]) then s[0] else Earliest(s[1..])
  }

  /** The end of one turn of the loop: refuse, or compare-and-set. */
  function Attempt(s: State, c: nat, k: Call, budget: nat): State
    requires budget > 0 && k.Loaded?
  {
    var recent := Filter(k.seen, Young(k.now));
    if |recent| >= budget then
      s.(calls := s.calls[c := Full(k.tries, RetryAfter(Earliest(recent), k.now))])
    else if s.row == k.seen then
      State(recent + [k.now], s.calls[c := Admitted(k.tries + 1, k.now)], s.commits + [Commit(c, k.now)])
    else
      s.(calls := s.calls[c := Looping(k.tries + 1, k.since)])
  }

  /** One step; an action that is not enabled changes nothing. */
  function Step(s: State, a: Action, budget: nat): State
    requires budget > 0
  {
    match a
    case Begin(c) =>
      if c in s.calls then s else s.(calls := s.calls[c := Looping(0, |s.commits|)])
    case ReadClock(c, now) =>
      if c in s.calls && s.calls[c].Looping? && s.calls[c].tries < ATTEMPTS
      then s.(calls := s.calls[c := Timed(s.calls[c].tries, s.calls[c].since, now)]) else s
    case ReadRow(c) =>
      if c in s.calls && s.calls[c].Timed?
      then s.(calls := s.calls[c := Loaded(s.calls[c].tries, s.calls[c].since, s.calls[c].now, s.row, |s.commits|)])
      else s
    case Finish(c) =>
      if c in s.calls && s.calls[c].Loaded? then Attempt(s, c, s.calls[c], budget)
      else if c in s.calls && s.calls[c].Looping? && s.calls[c].tries >= ATTEMPTS
      then s.(calls := s.calls[c := Contended(s.calls[c].tries, s.calls[c].since, 1)])
      else s
  }

  /** The row exists and is empty at the start. */
  function Exec(actions: seq<Action>, budget: nat): State
    requires budget > 0
  {
    if actions == [] then State([], map[], [])
    else Step(Exec(actions[..|actions| - 1], budget), actions[|actions| - 1], budget)
  }

  function TimeOf(k: Commit): real { k.now }

  function Times(commits: seq<Commit>): seq<real> {
    Map(commits, TimeOf)
  }

  // ---- What a row must contain, read off the history alone ----

  ghost predicate Unexpired(times: seq<real>, i: nat)
    requires i < |times|
  {
    forall k :: i < k < |times| ==> times[k] - times[i] < WINDOW_SECONDS
  }

  /** The starts from position i on that no later committer saw as 60 s old, in commit order. */
  ghost function Surviving(times: seq<real>, i: nat): seq<real>
    requires i <= |times|
    decreases |times| - i
  {
    if i == |times| then []
    else (if Unexpired(times, i) then [times[i]] else []) + Surviving(times, i + 1)
  }

  lemma UnexpiredExtend(times: seq<real>, now: real, i: nat)
    requires i < |times|
    ensures Unexpired(times + [now], i) <==> Unexpired(times, i) && Young(now)(times[i])
  {
    var next := times + [now];
    if Unexpired(next, i) {
      assert next[|times|] - next[i] < WINDOW_SECONDS;
      forall k | i < k < |times| ensures times[k] - times[i] < WINDOW_SECONDS {
        assert next[k] - next[i] < WINDOW_SECONDS;
      }
    }
  }

  lemma {:induction false} SurvivingExtend(times: seq<real>, now: real, i: nat)
    requires i <= |times|
    ensures Surviving(times + [now], i) == Filter(Surviving(times, i), Young(now)) + [now]
    decreases |times| - i
  {
    var next := times + [now];
    if i == |times| {
      assert Unexpired(next, i);
      assert Surviving(next, i + 1) == [];
    } else {
      SurvivingExtend(times, now, i + 1);
      UnexpiredExtend(times, now, i);
      FilterAppend(if Unexpired(times, i) then [times[i]] else [], Surviving(times, i + 1), Young(now));
    }
  }

  // ---- The invariant ----

  ghost predicate CallOk(s: State, c: nat, budget: nat)
    requires c in s.calls
  {
    match s.calls[c]
    case Looping(tries, since) => tries <= ATTEMPTS && since + tries <= |s.commits|
    case Timed(tries, since, _) => tries < ATTEMPTS && since + tries <= |s.commits|
    case Loaded(tries, since, _, seen, version) =>
      && tries < ATTEMPTS && since + tries <= version <= |s.commits|
      && (version == |s.commits| ==> seen == s.row) && |seen| <= budget
    case Admitted(tries, now) => 1 <= tries <= ATTEMPTS
    case Full(tries, _) => tries < ATTEMPTS
    case Contended(tries, since, retryAfter) =>
      tries == ATTEMPTS && retryAfter == 1 && since + ATTEMPTS <= |s.commits|
  }

  /** Commits and admitted calls correspond one to one. */
  ghost predicate CommitsOk(s: State) {
    && (forall i, j :: 0 <= i < j < |s.commits| ==> s.commits[i].call != s.commits[j].call)
    && (forall i :: 0 <= i < |s.commits| ==>
          s.commits[i].call in s.calls && s.calls[s.commits[i].call].Admitted?
          && s.calls[s.commits[i].call].now == s.commits[i].now)
    && (forall c :: c in s.calls && s.calls[c].Admitted? ==> exists i :: 0 <= i < |s.commits| && s.commits[i].call == c)
  }

  ghost predicate Invariant(s: State, budget: nat) {
    && |s.row| <= budget
    && s.row == Surviving(Times(s.commits), 0)
    && (forall c :: c in s.calls ==> CallOk(s, c, budget))
    && CommitsOk(s)
  }

  lemma CommitKeepsInvariant(s: State, c: nat, budget: nat)
    requires budget > 0 && Invariant(s, budget) && c in s.calls && s.calls[c].Loaded? && s.row == s.calls[c].seen
    requires |Filter(s.row, Young(s.calls[c].now))| < budget
    ensures Invariant(Attempt(s, c, s.calls[c], budget), budget)
  {
    var k := s.calls[c];
    var s' := Attempt(s, c, k, budget);
    SurvivingExtend(Times(s.commits), k.now, 0);
    assert Times(s'.commits) == Times(s.commits) + [k.now];
    forall d | d in s'.calls ensures CallOk(s', d, budget) {
      if d != c {
        assert CallOk(s, d, budget);
      } else {
        assert CallOk(s, c, budget);
      }
    }
    forall d | d in s'.calls && s'.calls[d].Admitted?
      ensures exists i :: 0 <= i < |s'.commits| && s'.commits[i].call == d
    {
      if d == c {
        assert s'.commits[|s.commits|].call == c;
      } else {
        var i :| 0 <= i < |s.commits| && s.commits[i].call == d;
        assert s'.commits[i].call == d;
      }
    }
  }

  /** Moving one call that is not admitted, without touching the row, keeps the invariant. */
  lemma MoveKeepsInvariant(s: State, c: nat, k: Call, budget: nat)
    requires Invariant(s, budget) && !k.Admitted?
    requires c in s.calls ==> !s.calls[c].Admitted?
    requires CallOk(s.(calls := s.calls[c := k]), c, budget)
    ensures Invariant(s.(calls := s.calls[c := k]), budget)
  {
    var s' := s.(calls := s.calls[c := k]);
    forall d | d in s'.calls ensures CallOk(s', d, budget) {
      if d != c {
        assert CallOk(s, d, budget);
      }
    }
    assert CommitsOk(s') by {
      forall d | d in s'.calls && s'.calls[d].Admitted?
        ensures exists i :: 0 <= i < |s'.commits| && s'.commits[i].call == d
      {
        assert d in s.calls && s.calls[d].Admitted?;
      }
    }
  }

  lemma StepKeepsInvariant(s: State, a: Action, budget: nat)
    requires budget > 0 && Invariant(s, budget)
    ensures Invariant(Step(s, a, budget), budget)
  {
    var s' := Step(s, a, budget);
    if s' != s {
      assert a.c in s.calls ==> CallOk(s, a.c, budget);
      if s'.commits == s.commits {
        MoveKeepsInvariant(s, a.c, s'.calls[a.c], budget);
      } else {
        CommitKeepsInvariant(s, a.c, budget);
      }
    }
  }

  lemma {:induction false} ExecInvariant(actions: seq<Action>, budget: nat)
    requires budget > 0
    ensures Invariant(Exec(actions, budget), budget)
  {
    if actions != [] {
      ExecInvariant(actions[..|actions| - 1], budget);
      StepKeepsInvariant(Exec(actions[..|actions| - 1], budget), actions[|actions| - 1], budget);
    }
  }

  // ---- Main results, for every interleaving ----

  /** The row never exceeds the budget and no admitted start is lost before a later committer saw it as 60 s old. */
  lemma NoLostUpdate(actions: seq<Action>, budget: nat)
    requires budget > 0
    ensures var s := Exec(actions, budget);
            |s.row| <= budget && s.row == Surviving(Times(s.commits), 0)
  {
    ExecInvariant(actions, budget);
  }

  /** A call is admitted iff exactly one commit is its own, and that commit wrote its clock reading. */
  lemma AdmittedOnce(actions: seq<Action>, c: nat, budget: nat)
    requires budget > 0
    ensures var s := Exec(actions, budget);
            && (c in s.calls && s.calls[c].Admitted? <==> exists i :: 0 <= i < |s.commits| && s.commits[i].call == c)
            && (forall i, j :: 0 <= i < j < |s.commits| ==> s.commits[i].call != c || s.commits[j].call != c)
            && (forall i :: 0 <= i < |s.commits| && s.commits[i].call == c ==>
                  c in s.calls && s.calls[c].Admitted? && s.commits[i].now == s.calls[c].now)
  {
    ExecInvariant(actions, budget);
  }

  /** At most five compare-and-sets; a refusal for contention means five other calls were admitted meanwhile. */
  lemma BoundedAttempts(actions: seq<Action>, c: nat, budget: nat)
    requires budget > 0 && c in Exec(actions, budget).calls
    ensures var s := Exec(actions, budget);
            && s.calls[c].tries <= 5
            && (s.calls[c].Contended? ==> |s.commits| - s.calls[c].since >= 5)
  {
    ExecInvariant(actions, budget);
    assert CallOk(Exec(actions, budget), c, budget);
  }

  lemma {:induction false} EarliestIsLeast(s: seq<real>)
    requires s != []
    ensures Earliest(s) in s && forall t :: t in s ==> Earliest(s) <= t
  {
    if |s| > 1 {
      EarliestIsLeast(s[1..]);
      assert s == [s[0]] + s[1..];
    }
  }

  /** After the wait for the earliest young start there is one young start less, at the least. */
  lemma RoomAfterWait(seen: seq<real>, now: real)
    requires Filter(seen, Young(now)) != []
    ensures var wait := RetryAfter(Earliest(Filter(seen, Young(now))), now);
            wait >= 1 && |Filter(seen, Young(now + wait as real))| < |Filter(seen, Young(now))|
  {
    var recent := Filter(seen, Young(now));
    EarliestIsLeast(recent);
    var first := Earliest(recent);
    FilterMember(seen, Young(now), first);
    FilterStrict(seen, Young(now + RetryAfter(first, now) as real), Young(now), first);
  }

  lemma FinishLoaded(s: State, c: nat, budget: nat)
    requires budget > 0 && c in s.calls && s.calls[c].Loaded?
    ensures var recent := Filter(s.calls[c].seen, Young(s.calls[c].now));
            var after := Step(s, Finish(c), budget).calls[c];
            && (after.Full? <==> |recent| >= budget)
            && (after.Full? ==> after.retryAfter == RetryAfter(Earliest(recent), s.calls[c].now))
  {
  }

  lemma LoadedRefusal(s: State, c: nat, budget: nat)
    requires budget > 0 && c in s.calls && s.calls[c].Loaded? && |s.calls[c].seen| <= budget
    ensures var k := s.calls[c];
            var after := Step(s, Finish(c), budget).calls[c];
            && (after.Full? <==> |Filter(k.seen, Young(k.now))| == budget)
            && (after.Full? ==> after.retryAfter >= 1)
            && (after.Full? ==> |Filter(k.seen, Young(k.now + after.retryAfter as real))| < budget)
  {
    var k := s.calls[c];
    FilterLength(k.seen, Young(k.now));
    FinishLoaded(s, c, budget);
    if Filter(k.seen, Young(k.now)) != [] {
      RoomAfterWait(k.seen, k.now);
    }
  }

  /**
   * A refusal for a full budget is truthful: the row read held exactly `budget` young starts, and
   * after the announced whole seconds (at least one) it holds fewer.
   */
  lemma FullRefusalIsTruthful(actions: seq<Action>, c: nat, budget: nat)
    requires budget > 0
    requires var s := Exec(actions, budget); c in s.calls && s.calls[c].Loaded?
    ensures var s := Exec(actions, budget);
            var k := s.calls[c];
            var after := Step(s, Finish(c), budget).calls[c];
            && (after.Full? <==> |Filter(k.seen, Young(k.now))| == budget)
            && (after.Full? ==> after.retryAfter >= 1)
            && (after.Full? ==> |Filter(k.seen, Young(k.now + after.retryAfter as real))| < budget)
  {
    ExecInvariant(actions, budget);
    var s := Exec(actions, budget);
    assert CallOk(s, c, budget);
    LoadedRefusal(s, c, budget);
  }

  // ---- The window bound ----

  /** Every start near the next committer is still in the row, when no committer comes back near an expired start. */
  lemma {:induction false} NearInRow(times: seq<real>, now: real, i: nat)
    requires NoReturn(times + [now]) && i <= |times|
    ensures |Filter(times[i..], Near(now))| <= |Filter(Surviving(times, i), Young(now))|
    decreases |times| - i
  {
    if i < |times| {
      NearInRow(times, now, i + 1);
      assert times[i..][1..] == times[i + 1..];
      var here := if Unexpired(times, i) then [times[i]] else [];
      FilterAppend(here, Surviving(times, i + 1), Young(now));
      if Near(now)(times[i]) {
        NearIsUnexpired(times, now, i);
        assert Filter([times[i]], Young(now)) == [times[i]];
      }
    }
  }

  lemma NearIsUnexpired(times: seq<real>, now: real, i: nat)
    requires NoReturn(times + [now]) && i < |times| && Near(now)(times[i])
    ensures Unexpired(times, i)
  {
    var all := times + [now];
    forall k | i < k < |times| ensures times[k] - times[i] < WINDOW_SECONDS {
      assert all[i] == times[i] && all[k] == times[k] && all[|times|] == now;
      NoReturnAt(all, i, k, |times|);
    }
  }

  lemma {:induction false} CommitsSparse(actions: seq<Action>, budget: nat)
    requires budget > 0 && NoReturn(Times(Exec(actions, budget).commits))
    ensures Sparse(Times(Exec(actions, budget).commits), budget)
  {
    if actions != [] {
      var before := Exec(actions[..|actions| - 1], budget);
      var after := Exec(actions, budget);
      var prior, later := Times(before.commits), Times(after.commits);
      if after.commits == before.commits {
        CommitsSparse(actions[..|actions| - 1], budget);
      } else {
        var now := after.commits[|before.commits|].now;
        assert later == prior + [now];
        NoReturnPrefix(later, |prior|);
        assert later[..|prior|] == prior;
        CommitsSparse(actions[..|actions| - 1], budget);
        ExecInvariant(actions[..|actions| - 1], budget);
        NearInRow(prior, now, 0);
        assert prior[0..] == prior;
        SparseAppend(prior, now, budget);
      }
    }
  }

  /**
   * All instances together: at most `budget` admitted starts in any half-open 60-second window, as long as no
   * committed reading comes near one that an earlier committer already saw as 60 s old.
   */
  lemma SharedWindowBound(actions: seq<Action>, budget: nat, w: real)
    requires budget > 0 && NoReturn(Times(Exec(actions, budget).commits))
    ensures |Filter(Times(Exec(actions, budget).commits), InWindow(w))| <= budget
  {
    CommitsSparse(actions, budget);
    WindowBound(Times(Exec(actions, budget).commits), budget, w);
  }

  // ---- What becomes of one call ----

  /** One turn of the loop with nothing in between. */
  function Turn(s: State, c: nat, now: real, budget: nat): State
    requires budget > 0
  {
    Step(Step(Step(s, ReadClock(c, now), budget), ReadRow(c), budget), Finish(c), budget)
  }

  /**
   * A turn that nothing interrupts ends the call.  With room in the last minute it is admitted: the row drops the starts
   * that are a minute old and gains the call's own.  Without, it is refused and nothing else changes.
   */
  lemma {:induction false} QuietTurnEnds(s: State, c: nat, now: real, budget: nat)
    requires budget > 0 && c in s.calls && s.calls[c].Looping? && s.calls[c].tries < 5
    ensures var recent, after := LastMinute(s.row, now), Turn(s, c, now, budget);
            if |recent| < budget then
              after == State(recent + [now], s.calls[c := Admitted(s.calls[c].tries + 1, now)], s.commits + [Commit(c, now)])
            else
              && after.row == s.row && after.commits == s.commits && after.calls.Keys == s.calls.Keys
              && after.calls[c].Full? && WaitsFor(recent, now, after.calls[c].retryAfter)
  {
    YoungIsLastMinute(s.row, now);
    var loaded := Loaded(s.calls[c].tries, s.calls[c].since, now, s.row, |s.commits|);
    var read := s.(calls := s.calls[c := loaded]);
    assert Step(Step(s, ReadClock(c, now), budget), ReadRow(c), budget) == read by {
      var timed := Timed(s.calls[c].tries, s.calls[c].since, now);
      assert s.calls[c := timed][c := loaded] == s.calls[c := loaded];
    }
    if |LastMinute(s.row, now)| < budget {
      var done := Admitted(s.calls[c].tries + 1, now);
      assert read.calls[c := done] == s.calls[c := done];
    } else {
      EarliestIsLeast(LastMinute(s.row, now));
      EarliestWaits(s.row, now, Earliest(LastMinute(s.row, now)));
    }
  }

  /**
   * A call whose row was changed before its compare-and-set tries again, and gives up after five; no step of a call
   * touches another one.
   */
  lemma {:induction false} OvertakenTurn(s: State, c: nat, budget: nat)
    requires budget > 0 && c in s.calls
    ensures s.calls[c].Loaded? && s.row != s.calls[c].seen && |LastMinute(s.calls[c].seen, s.calls[c].now)| < budget ==>
      Step(s, Finish(c), budget) == s.(calls := s.calls[c := Looping(s.calls[c].tries + 1, s.calls[c].since)])
    ensures s.calls[c].Looping? && s.calls[c].tries == 5 ==>
      Step(s, Finish(c), budget) == s.(calls := s.calls[c := Contended(5, s.calls[c].since, 1)])
    ensures forall a: Action :: a.c != c ==>
      c in Step(s, a, budget).calls && Step(s, a, budget).calls[c] == s.calls[c]
  {
    if s.calls[c].Loaded? {
      YoungIsLastMinute(s.calls[c].seen, s.calls[c].now);
    }
  }

  lemma ExecMore(actions: seq<Action>, a: Action, budget: nat)
    requires budget > 0
    ensures Exec(actions + [a], budget) == Step(Exec(actions, budget), a, budget)
  {
    assert (actions + [a])[..|actions|] == actions;
  }

  /** After any run, a call can begin and end by four steps of its own, admitted iff there is room in the last minute. */
  lemma {:induction false} CallCanEnd(actions: seq<Action>, c: nat, now: real, budget: nat)
    requires budget > 0 && c !in Exec(actions, budget).calls
    ensures var s := Exec(actions, budget);
            var after := Exec(actions + [Begin(c)] + [ReadClock(c, now)] + [ReadRow(c)] + [Finish(c)], budget);
            var recent := LastMinute(s.row, now);
            && c in after.calls
            && (after.calls[c].Admitted? <==> |recent| < budget) && (after.calls[c].Full? <==> |recent| >= budget)
            && (after.calls[c].Admitted? ==> after.row == recent + [now] && after.commits == s.commits + [Commit(c, now)])
  {
    ExecMore(actions, Begin(c), budget);
    ExecMore(actions + [Begin(c)], ReadClock(c, now), budget);
    ExecMore(actions + [Begin(c)] + [ReadClock(c, now)], ReadRow(c), budget);
    ExecMore(actions + [Begin(c)] + [ReadClock(c, now)] + [ReadRow(c)], Finish(c), budget);
    QuietTurnEnds(Step(Exec(actions, budget), Begin(c), budget), c, now, budget);
  }

  /** Commits in clock order: at most `budget` in any minute, all instances together. */
  lemma SharedPerMinute(actions: seq<Action>, budget: nat, w: real)
    requires budget > 0 && InOrder(Times(Exec(actions, budget).commits))
    ensures |Filter(Times(Exec(actions, budget).commits), Minute(w))| <= budget
  {
    InOrderNeverReturns(Times(Exec(actions, budget).commits));
    SharedWindowBound(actions, budget, w);
    FilterAgree(Times(Exec(actions, budget).commits), InWindow(w), Minute(w));
  }
}
