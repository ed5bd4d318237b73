/** Recurring patterns in the healing history (agents/memory/pattern_detector.py). */
module PatternDetector {
  import opened Sequences
  import opened Rounding
  import opened MemoryRecords
  import opened MemoryStore
  import opened HealingEvidence

  const CHAIN_MIN_LENGTH := 2
  const RELIABLE_MIN_SUCCESSES := 2
  const UNRELIABLE_MIN_FAILURES := 2

  datatype PatternKind = SelectorChain | ReliableReplacement | UnreliableReplacement

  datatype Pattern = Pattern(kind: PatternKind, selectors: seq<string>, occurrences: nat, signal: real)

  // ---- Selector chains ----

  /** Follow the last validated replacement until there is none or it was met before. */
  ghost predicate IsChain(m: InMemoryStore, selector: string, chain: seq<string>)
    reads m
  {
    && chain != [] && chain[0] == selector && Distinct(chain)
    && (forall i :: 0 <= i < |chain| - 1 ==> GetLastSuccessfulReplacement(m, chain[i]) == Some(chain[i + 1]))
    && (GetLastSuccessfulReplacement(m, chain[|chain| - 1]).Some? ==>
          GetLastSuccessfulReplacement(m, chain[|chain| - 1]).value in chain)
  }

  function ChainSignal(hops: nat): real {
    Round4(if hops as real / 5.0 < 1.0 then hops as real / 5.0 else 1.0)
  }

  function ChainPattern(chain: seq<string>): Option<Pattern> {
    if |chain| < CHAIN_MIN_LENGTH + 1 then None
    else Some(Pattern(SelectorChain, chain, |chain| - 1, ChainSignal(|chain| - 1)))
  }

  /** Every selector that some stored record proposes, and the first one. */
  ghost function Reach(log: seq<Entry>, selector: string): set<string> {
    {selector} + set e | e in log && e.Healing? :: e.healing.newSelector
  }

  lemma ReplacementInReach(m: InMemoryStore, selector: string, current: string)
    requires m.Valid() && GetLastSuccessfulReplacement(m, current).Some?
    ensures GetLastSuccessfulReplacement(m, current).value in Reach(m.log, selector)
  {
    var records := m.GetHealingHistory(current, SELECTOR_LIMIT);
    ReplacementsAreFilteredHistory(m, current, "", SELECTOR_LIMIT);
    var successes := Filter(records, IsSuccess);
    FirstMaxIsMax(successes, HealingTime);
    var r := FirstMax(successes, HealingTime);
    FilterMember(records, IsSuccess, r);
    SortMember(HealingsOf(m.log, current), HealingTime, r);
    HealingsOfMember(m.log, current, r);
    assert Healing(r) in m.log;
  }

  /** The `while True` walk.  It ends on every store, cyclic histories included. */
  method Walk(m: InMemoryStore, selector: string) returns (walked: seq<string>)
    requires m.Valid()
    ensures IsChain(m, selector, walked)
  {
    walked := [selector];
    var current := selector;
    var visited := {selector};
    while true
      invariant walked != [] && walked[0] == selector && Distinct(walked) && current == walked[|walked| - 1]
      invariant forall s :: s in visited <==> s in walked
      invariant visited <= Reach(m.log, selector)
      invariant forall i :: 0 <= i < |walked| - 1 ==> GetLastSuccessfulReplacement(m, walked[i]) == Some(walked[i + 1])
      decreases Reach(m.log, selector) - visited
    {
      var records := m.GetHealingHistory(current, SELECTOR_LIMIT);
      var successful := Filter(records, IsSuccess);
      if successful == [] {
        break;
      }
      var latest := FirstMax(successful, HealingTime);
      var next := latest.newSelector;
      if next in visited {
        break;
      }
      ReplacementInReach(m, selector, current);
      assert next in Reach(m.log, selector) - visited;
      walked := walked + [next];
      visited := visited + {next};
      current := next;
    }
  }

  /** `detect_selector_chain`: the walk, reported when it has at least two hops. */
  method DetectSelectorChain(m: InMemoryStore, selector: string)
    returns (p: Option<Pattern>, ghost chain: seq<string>)
    requires m.Valid()
    ensures IsChain(m, selector, chain) && p == ChainPattern(chain)
    ensures forall c :: IsChain(m, selector, c) ==> p == ChainPattern(c)
  {
    var walked := Walk(m, selector);
    chain := walked;
    forall c | IsChain(m, selector, c) ensures c == chain {
      ChainUnique(m, selector, chain, c);
    }
    if |walked| < CHAIN_MIN_LENGTH + 1 {
      return None, walked;
    }
    var hops := |walked| - 1;
    var signal := if hops as real / 5.0 < 1.0 then hops as real / 5.0 else 1.0;
    return Some(Pattern(SelectorChain, walked, hops, Round4(signal))), walked;
  }

  /** One walk goes as far as any other, through the same selectors. */
  lemma {:induction false} ChainsAgree(m: InMemoryStore, selector: string, a: seq<string>, b: seq<string>, i: nat)
    requires IsChain(m, selector, a) && IsChain(m, selector, b) && i < |b|
    ensures i < |a| && a[i] == b[i]
  {
    if i > 0 {
      ChainsAgree(m, selector, a, b, i - 1);
      assert GetLastSuccessfulReplacement(m, b[i - 1]) == Some(b[i]);
      if i == |a| {
        var k :| 0 <= k < |a| && a[k] == b[i];
        ChainsAgree(m, selector, a, b, k);
        assert false;
      }
      assert GetLastSuccessfulReplacement(m, a[i - 1]) == Some(a[i]);
    }
  }

  /** So the walk is determined by the store. */
  lemma ChainUnique(m: InMemoryStore, selector: string, a: seq<string>, b: seq<string>)
    requires IsChain(m, selector, a) && IsChain(m, selector, b)
    ensures a == b
  {
    ChainsAgree(m, selector, a, b, |b| - 1);
    ChainsAgree(m, selector, b, a, |a| - 1);
    forall i | 0 <= i < |b| ensures a[i] == b[i] {
      ChainsAgree(m, selector, a, b, i);
    }
  }

  // ---- Reliable and unreliable replacements ----

  function Share(a: nat, n: nat): real {
    if n > 0 then a as real / n as real else 0.0
  }

  function ReliableSignal(group: seq<HealingRecord>): real {
    Round4(Share(|Filter(group, IsSuccess)|, |group|))
  }

  function UnreliableSignal(group: seq<HealingRecord>): real {
    Round4(1.0 - Share(|Filter(group, IsRejected)|, |group|))
  }

  /** The pattern a group of records of one pair amounts to. */
  function ReliableOf(selector: string, k: string, group: seq<HealingRecord>): Pattern {
    Pattern(ReliableReplacement, [selector, k], |Filter(group, IsSuccess)|, ReliableSignal(group))
  }

  function UnreliableOf(selector: string, k: string, group: seq<HealingRecord>): Pattern {
    Pattern(UnreliableReplacement, [selector, k], |Filter(group, IsRejected)|, UnreliableSignal(group))
  }

  function Repeated(records: seq<HealingRecord>, verdict: HealingRecord -> bool, least: nat): string -> bool {
    (k: string) => |Filter(Filter(records, ForReplacement(k)), verdict)| >= least
  }

  function Reliable(selector: string): (string, seq<HealingRecord>) -> Pattern {
    (k: string, group: seq<HealingRecord>) => ReliableOf(selector, k, group)
  }

  function Unreliable(selector: string): (string, seq<HealingRecord>) -> Pattern {
    (k: string, group: seq<HealingRecord>) => UnreliableOf(selector, k, group)
  }

  function Described(records: seq<HealingRecord>, describe: (string,
                     seq<HealingRecord>) -> Pattern): string -> Pattern {
    (k: string) => describe(k, Filter(records, ForReplacement(k)))
  }

  /** The patterns of the keys that qualify, in order. */
  function Report(keys: seq<string>, keep: string -> bool, f: string -> Pattern): seq<Pattern> {
    Map(Filter(keys, keep), f)
  }

  lemma ReportAppend(keys: seq<string>, k: string, keep: string -> bool, f: string -> Pattern)
    ensures Report(keys + [k], keep, f) == Report(keys, keep, f) + (if keep(k) then [f(k)] else [])
  {
    FilterAppend(keys, [k], keep);
    assert Filter([k], keep) == if keep(k) then [k] else [];
  }

  /** The loop over the groups: describe each group in which a verdict is repeated. */
  method ReportGroups(ghost records: seq<HealingRecord>, keys: seq<string>, groups: map<string, seq<HealingRecord>>,
                      verdict: HealingRecord -> bool, least: nat,
                      describe: (string, seq<HealingRecord>) -> Pattern)
    returns (patterns: seq<Pattern>)
    requires forall i :: 0 <= i < |keys| ==> keys[i] in groups && groups[keys[i]] == Filter(records, ForReplacement(keys[i]))
    ensures patterns == Report(keys, Repeated(records, verdict, least), Described(records, describe))
  {
    ghost var keep, f := Repeated(records, verdict, least), Described(records, describe);
    patterns := [];
    for i := 0 to |keys|
      invariant patterns == Report(keys[..i], keep, f)
    {
      var k := keys[i];
      assert keys[..i + 1] == keys[..i] + [k];
      ReportAppend(keys[..i], k, keep, f);
      if |Filter(groups[k], verdict)| >= least {
        patterns := patterns + [describe(k, groups[k])];
      }
    }
    assert keys[..|keys|] == keys;
  }

  /** One pattern per replacement validated at least twice among the newest 100 records. */
  method DetectReliableReplacements(m: InMemoryStore, selector: string) returns (patterns: seq<Pattern>)
    ensures var records := m.GetHealingHistory(selector, 100);
            patterns == Report(Keys(records), Repeated(records, IsSuccess, 2), Described(records, Reliable(selector)))
  {
    var records := m.GetHealingHistory(selector, SELECTOR_LIMIT);
    var keys, groups := GroupByReplacement(records);
    patterns := ReportGroups(records, keys, groups, IsSuccess, RELIABLE_MIN_SUCCESSES, Reliable(selector));
  }

  /** One pattern per replacement rejected at least twice among the newest 100 records. */
  method DetectUnreliableReplacements(m: InMemoryStore, selector: string) returns (patterns: seq<Pattern>)
    ensures var records := m.GetHealingHistory(selector, 100);
            patterns == Report(Keys(records), Repeated(records, IsRejected, 2), Described(records, Unreliable(selector)))
  {
    var records := m.GetHealingHistory(selector, SELECTOR_LIMIT);
    var keys, groups := GroupByReplacement(records);
    patterns := ReportGroups(records, keys, groups, IsRejected, UNRELIABLE_MIN_FAILURES, Unreliable(selector));
  }

  /**
   * A replacement can be reported both ways; then the two signals are consistent (the reliable one
   * never exceeds the unreliable one, both in [0, 1]) and they meet when no verdict was inconclusive.
   */
  lemma {:induction false} SignalsConsistent(group: seq<HealingRecord>)
    requires group != []
    ensures 0.0 <= ReliableSignal(group) <= UnreliableSignal(group) <= 1.0
    ensures Filter(group, IsInconclusive) == [] ==> ReliableSignal(group) == UnreliableSignal(group)
  {
    VerdictsPartition(group);
    var s, f := |Filter(group, IsSuccess)|, |Filter(group, IsRejected)|;
    var n := |group| as real;
    SharesInOrder(s as real, n - f as real, n);
    Fraction(n - f as real, n);
    Complement(f as real, n);
    RoundedInOrder(Share(s, |group|), 1.0 - Share(f, |group|));
    if Filter(group, IsInconclusive) == [] {
      assert s as real == n - f as real;
    }
  }

  lemma RoundedInOrder(x: real, y: real)
    requires 0.0 <= x <= y <= 1.0
    ensures 0.0 <= Round4(x) <= Round4(y) <= 1.0
  {
    Round4Monotone(x, y);
    Round4Between(0, x, 10000);
    Round4Between(0, y, 10000);
  }

  lemma SharesInOrder(a: real, b: real, n: real)
    requires 0.0 <= a <= b && n > 0.0
    ensures 0.0 <= a / n <= b / n
  {
  }

  lemma Complement(a: real, n: real)
    requires n > 0.0
    ensures 1.0 - a / n == (n - a) / n
  {
    var b := n - a;
    assert a / n + b / n == (a + b) / n;
    assert n / n == 1.0;
  }

  // ---- The patterns in terms of the records' fields ----

  /** The positions of the records that propose this replacement. */
  function Proposing(records: seq<HealingRecord>, k: string): set<int> {
    set i | 0 <= i < |records| && records[i].newSelector == k
  }

  function ProposingWith(records: seq<HealingRecord>, k: string, verdict: Option<bool>): set<int> {
    set i | 0 <= i < |records| && records[i].newSelector == k && records[i].validation == verdict
  }

  lemma ProposingCounts(records: seq<HealingRecord>, k: string, p: HealingRecord -> bool, verdict: Option<bool>)
    requires forall r :: p(r) <==> r.validation == verdict
    ensures |Filter(records, ForReplacement(k))| == |Proposing(records, k)|
    ensures |Filter(Filter(records, ForReplacement(k)), p)| == |ProposingWith(records, k, verdict)|
  {
    FilterCounts(records, ForReplacement(k));
    assert Passing(records, ForReplacement(k)) == Proposing(records, k);
    FilterFilter(records, ForReplacement(k), p, Both(k, p));
    FilterCounts(records, Both(k, p));
    assert Passing(records, Both(k, p)) == ProposingWith(records, k, verdict);
  }

  lemma {:induction false} MapMember<A, B>(s: seq<A>, f: A -> B, y: B)
    ensures y in Map(s, f) <==> exists x :: x in s && f(x) == y
  {
    if x :| x in s && f(x) == y {
      var i :| 0 <= i < |s| && s[i] == x;
      assert Map(s, f)[i] == y;
    }
  }

  /** A report holds the patterns of the keys that qualify and that the records propose. */
  lemma {:induction false} ReportMember(records: seq<HealingRecord>, keep: string -> bool, f: string -> Pattern, p: Pattern)
    ensures p in Report(Keys(records), keep, f)
       <==> exists k :: Proposing(records, k) != {} && keep(k) && f(k) == p
  {
    KeysDistinct(records);
    forall k ensures k in Filter(Keys(records), keep) <==> Proposing(records, k) != {} && keep(k) {
      FilterMember(Keys(records), keep, k);
      if k in Keys(records) {
        var r :| r in records && r.newSelector == k;
        var i :| 0 <= i < |records| && records[i] == r;
        assert i in Proposing(records, k);
      }
      if i :| i in Proposing(records, k) {
        assert records[i] in records;
      }
    }
    MapMember(Filter(Keys(records), keep), f, p);
  }

  lemma SomeWith(records: seq<HealingRecord>, k: string, verdict: Option<bool>)
    requires |ProposingWith(records, k, verdict)| > 0
    ensures Proposing(records, k) != {} && |Proposing(records, k)| > 0
  {
    var i :| i in ProposingWith(records, k, verdict);
    assert i in Proposing(records, k);
  }

  /** The pattern of one replacement: how many records carry the verdict, and a signal that is this share to four places. */
  ghost predicate Describes(p: Pattern, kind: PatternKind, selector: string, k: string, n: nat, share: real) {
    && p.kind == kind && p.selectors == [selector, k] && p.occurrences == n
    && share - 0.00005 <= p.signal <= share + 0.00005
  }

  /** At least two records propose k and were validated; the signal is the share of its records that were. */
  ghost predicate ReliableAs(records: seq<HealingRecord>, selector: string, k: string, p: Pattern) {
    var won, all := |ProposingWith(records, k, Some(true))|, |Proposing(records, k)|;
    won >= 2 && all > 0 && Describes(p, ReliableReplacement, selector, k, won, won as real / all as real)
  }

  /** At least two records propose k and were rejected; the signal is the share of its records that were not. */
  ghost predicate UnreliableAs(records: seq<HealingRecord>, selector: string, k: string, p: Pattern) {
    var lost, all := |ProposingWith(records, k, Some(false))|, |Proposing(records, k)|;
    lost >= 2 && all > 0 && Describes(p, UnreliableReplacement, selector, k, lost, 1.0 - lost as real / all as real)
  }

  lemma GroupSignals(group: seq<HealingRecord>, won: nat, lost: nat)
    requires group != [] && won == |Filter(group, IsSuccess)| && lost == |Filter(group, IsRejected)|
    ensures var share := won as real / |group| as real;
            share - 0.00005 <= ReliableSignal(group) <= share + 0.00005
    ensures var share := 1.0 - lost as real / |group| as real;
            share - 0.00005 <= UnreliableSignal(group) <= share + 0.00005
  {
    var _ := Round4Near(Share(won, |group|));
    var _ := Round4Near(1.0 - Share(lost, |group|));
  }

  lemma ReliableKey(records: seq<HealingRecord>, selector: string, k: string)
    ensures Repeated(records, IsSuccess, 2)(k) <==> |ProposingWith(records, k, Some(true))| >= 2
    ensures Repeated(records, IsSuccess, 2)(k) ==>
      ReliableAs(records, selector, k, Described(records, Reliable(selector))(k)) && Proposing(records, k) != {}
  {
    var group := Filter(records, ForReplacement(k));
    ProposingCounts(records, k, IsSuccess, Some(true));
    if |Filter(group, IsSuccess)| >= 2 {
      SomeWith(records, k, Some(true));
      GroupSignals(group, |Filter(group, IsSuccess)|, |Filter(group, IsRejected)|);
      assert Described(records, Reliable(selector))(k) == ReliableOf(selector, k, group);
    }
  }

  lemma UnreliableKey(records: seq<HealingRecord>, selector: string, k: string)
    ensures Repeated(records, IsRejected, 2)(k) <==> |ProposingWith(records, k, Some(false))| >= 2
    ensures Repeated(records, IsRejected, 2)(k) ==>
      UnreliableAs(records, selector, k, Described(records, Unreliable(selector))(k)) && Proposing(records, k) != {}
  {
    var group := Filter(records, ForReplacement(k));
    ProposingCounts(records, k, IsRejected, Some(false));
    if |Filter(group, IsRejected)| >= 2 {
      SomeWith(records, k, Some(false));
      GroupSignals(group, |Filter(group, IsSuccess)|, |Filter(group, IsRejected)|);
      assert Described(records, Unreliable(selector))(k) == UnreliableOf(selector, k, group);
    }
  }

  lemma {:induction false} ReliableReported(records: seq<HealingRecord>, selector: string, p: Pattern)
    requires p in Report(Keys(records), Repeated(records, IsSuccess, 2), Described(records, Reliable(selector)))
    ensures exists k :: ReliableAs(records, selector, k, p)
  {
    var keep, f := Repeated(records, IsSuccess, 2), Described(records, Reliable(selector));
    ReportMember(records, keep, f, p);
    var k :| Proposing(records, k) != {} && keep(k) && f(k) == p;
    ReliableKey(records, selector, k);
  }

  /** The reliable replacements among these records: one for each that at least two records propose and validated. */
  lemma {:induction false} ReliableByField(records: seq<HealingRecord>, selector: string, k: string, p: Pattern)
    ensures var report := Report(Keys(records), Repeated(records, IsSuccess, 2), Described(records, Reliable(selector)));
            && (p in report ==> exists k :: ReliableAs(records, selector, k, p))
            && (|ProposingWith(records, k, Some(true))| >= 2 ==>
                  exists q :: q in report && ReliableAs(records, selector, k, q))
  {
    var keep, f := Repeated(records, IsSuccess, 2), Described(records, Reliable(selector));
    if p in Report(Keys(records), keep, f) {
      ReliableReported(records, selector, p);
    }
    ReliableKey(records, selector, k);
    ReportMember(records, keep, f, f(k));
  }

  lemma {:induction false} UnreliableReported(records: seq<HealingRecord>, selector: string, p: Pattern)
    requires p in Report(Keys(records), Repeated(records, IsRejected, 2), Described(records, Unreliable(selector)))
    ensures exists k :: UnreliableAs(records, selector, k, p)
  {
    var keep, f := Repeated(records, IsRejected, 2), Described(records, Unreliable(selector));
    ReportMember(records, keep, f, p);
    var k :| Proposing(records, k) != {} && keep(k) && f(k) == p;
    UnreliableKey(records, selector, k);
  }

  /** The unreliable ones: one for each that at least two records propose and rejected. */
  lemma {:induction false} UnreliableByField(records: seq<HealingRecord>, selector: string, k: string, p: Pattern)
    ensures var report := Report(Keys(records), Repeated(records, IsRejected, 2), Described(records, Unreliable(selector)));
            && (p in report ==> exists k :: UnreliableAs(records, selector, k, p))
            && (|ProposingWith(records, k, Some(false))| >= 2 ==>
                  exists q :: q in report && UnreliableAs(records, selector, k, q))
  {
    var keep, f := Repeated(records, IsRejected, 2), Described(records, Unreliable(selector));
    if p in Report(Keys(records), keep, f) {
      UnreliableReported(records, selector, p);
    }
    UnreliableKey(records, selector, k);
    ReportMember(records, keep, f, f(k));
  }

  /** A chain is reported from two replacements on, by its selectors and their number, at a fifth each and 1 at most. */
  lemma {:induction false} ChainByHops(chain: seq<string>)
    requires chain != []
    ensures var hops, p := |chain| - 1, ChainPattern(chain);
            && (p.Some? <==> hops >= 2)
            && (p.Some? ==> p.value.kind == SelectorChain && p.value.selectors == chain && p.value.occurrences == hops)
            && (p.Some? ==> p.value.signal == if hops <= 5 then hops as real / 5.0 else 1.0)
  {
    var hops := |chain| - 1;
    if hops < 5 {
      Round4Exact(2000 * hops);
      assert (2000 * hops) as real / 10000.0 == hops as real / 5.0;
    } else {
      Round4Exact(10000);
    }
  }
}
