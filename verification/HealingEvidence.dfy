/** Aggregation of healing records into evidence (agents/memory/healing_evidence.py). */
module HealingEvidence {
  import opened Sequences
  import opened Rounding
  import opened MemoryRecords
  import opened MemoryStore

  const PAIR_LIMIT := 20
  const SELECTOR_LIMIT := 100

  datatype ReplacementStats = ReplacementStats(
    oldSelector: string, newSelector: string,
    attempts: nat, successes: nat, failures: nat, inconclusive: nat,
    avgConfidence: real, lastUsed: Option<real>)

  datatype SelectorHistory = SelectorHistory(
    selector: string, totalHealings: nat, totalSuccesses: nat, totalFailures: nat,
    distinctReplacements: nat, stats: seq<ReplacementStats>)

  function SuccessRate(s: ReplacementStats): real {
    if s.attempts == 0 then 0.0 else s.successes as real / s.attempts as real
  }

  function ConfidenceSum(records: seq<HealingRecord>): real {
    if records == [] then 0.0 else records[0].confidence + ConfidenceSum(records[1..])
  }

  function StatsOf(oldSelector: string, newSelector: string, records: seq<HealingRecord>): ReplacementStats {
    if records == [] then ReplacementStats(oldSelector, newSelector, 0, 0, 0, 0, 0.0, None)
    else
      var avg := ConfidenceSum(records) / |records| as real;
      var sorted := SortDesc(records, HealingTime);
      ReplacementStats(
        oldSelector, newSelector, |records|,
        |Filter(records, IsSuccess)|, |Filter(records, IsRejected)|, |Filter(records, IsInconclusive)|,
        Round4(if avg > 1.0 then 1.0 else avg),
        if sorted == [] then None else Some(sorted[0].timestamp))
  }

  function GetReplacementStats(m: InMemoryStore, oldSelector: string, newSelector: string): ReplacementStats
    reads m
  {
    StatsOf(oldSelector, newSelector, m.GetHealingHistoryForReplacement(oldSelector, newSelector, PAIR_LIMIT))
  }

  function GetLastSuccessfulReplacement(m: InMemoryStore, selector: string): Option<string>
    reads m
  {
    var successes := Filter(m.GetHealingHistory(selector, SELECTOR_LIMIT), IsSuccess);
    if successes == [] then None else Some(FirstMax(successes, HealingTime).newSelector)
  }

  function ComputeHistoryScore(m: InMemoryStore, oldSelector: string, newSelector: string): real
    reads m
  {
    var stats := GetReplacementStats(m, oldSelector, newSelector);
    if stats.attempts == 0 then 0.0 else SuccessRate(stats)
  }

  // ---- Grouping ----

  /** The replacement selectors in order of first appearance: the keys of the grouping dictionary. */
  function Keys(records: seq<HealingRecord>): seq<string> {
    if records == [] then []
    else
      var init := Keys(records[..|records| - 1]);
      var k := records[|records| - 1].newSelector;
      if k in init then init else init + [k]
  }

  lemma {:induction false} KeysDistinct(records: seq<HealingRecord>)
    ensures Distinct(Keys(records))
    ensures forall k :: k in Keys(records) <==> exists r :: r in records && r.newSelector == k
  {
    if records != [] {
      var init, last := records[..|records| - 1], records[|records| - 1];
      KeysDistinct(init);
      assert records == init + [last];
      forall k ensures k in Keys(records) <==> exists r :: r in records && r.newSelector == k {
        if k == last.newSelector {
          assert last in records;
        } else if exists r :: r in records && r.newSelector == k {
          var r :| r in records && r.newSelector == k;
          assert r in init;
        }
      }
    }
  }

  /** `by_replacement`: each record goes to the list of its replacement, in the order met. */
  method GroupByReplacement(records: seq<HealingRecord>)
    returns (keys: seq<string>, groups: map<string, seq<HealingRecord>>)
    ensures keys == Keys(records) && groups.Keys == set k | k in keys
    ensures forall k :: k in groups ==> groups[k] == Filter(records, ForReplacement(k))
  {
    keys, groups := [], map[];
    for i := 0 to |records|
      invariant keys == Keys(records[..i]) && groups.Keys == set k | k in keys
      invariant forall k :: k in groups ==> groups[k] == Filter(records[..i], ForReplacement(k))
    {
      var r := records[i];
      assert records[..i + 1][..i] == records[..i];
      assert records[..i + 1] == records[..i] + [r];
      forall k ensures Filter(records[..i + 1], ForReplacement(k))
                    == Filter(records[..i], ForReplacement(k)) + (if k == r.newSelector then [r] else [])
      {
        OneMore(records[..i], r, k);
      }
      if r.newSelector !in groups {
        NoneSelected(records[..i], r.newSelector);
        keys := keys + [r.newSelector];
        groups := groups[r.newSelector := []];
      }
      groups := groups[r.newSelector := groups[r.newSelector] + [r]];
    }
    assert records[..|records|] == records;
  }

  lemma OneMore(records: seq<HealingRecord>, r: HealingRecord, k: string)
    ensures Filter(records + [r], ForReplacement(k))
         == Filter(records, ForReplacement(k)) + (if k == r.newSelector then [r] else [])
  {
    FilterAppend(records, [r], ForReplacement(k));
    assert [r][1..] == [];
  }

  lemma {:induction false} NoneSelected(records: seq<HealingRecord>, k: string)
    requires k !in Keys(records)
    ensures Filter(records, ForReplacement(k)) == []
  {
    if records != [] {
      var init, last := records[..|records| - 1], records[|records| - 1];
      assert records == init + [last];
      NoneSelected(init, k);
      OneMore(init, last, k);
    }
  }

  // ---- Sums ----

  function SumOver(keys: seq<string>, f: string -> nat): nat {
    if keys == [] then 0 else f(keys[0]) + SumOver(keys[1..], f)
  }

  lemma {:induction false} SumOverAppend(keys: seq<string>, k: string, f: string -> nat)
    ensures SumOver(keys + [k], f) == SumOver(keys, f) + f(k)
  {
    if keys == [] {
      assert keys + [k] == [k];
    } else {
      assert (keys + [k])[1..] == keys[1..] + [k];
      SumOverAppend(keys[1..], k, f);
    }
  }

  function Both(k: string, p: HealingRecord -> bool): HealingRecord -> bool {
    (r: HealingRecord) => r.newSelector == k && p(r)
  }

  function CountIn(records: seq<HealingRecord>, p: HealingRecord -> bool): string -> nat {
    (k: string) => |Filter(records, Both(k, p))|
  }

  function One(r: HealingRecord, p: HealingRecord -> bool): string -> nat {
    (k: string) => if r.newSelector == k && p(r) then 1 else 0
  }

  lemma {:induction false} SumOfSums(keys: seq<string>, f: string -> nat, g: string -> nat, h: string -> nat)
    requires forall k :: k in keys ==> h(k) == f(k) + g(k)
    ensures SumOver(keys, h) == SumOver(keys, f) + SumOver(keys, g)
  {
    if keys != [] {
      assert keys[0] in keys && forall k :: k in keys[1..] ==> k in keys;
      SumOfSums(keys[1..], f, g, h);
    }
  }

  lemma {:induction false} SumOfOne(keys: seq<string>, r: HealingRecord, p: HealingRecord -> bool)
    requires Distinct(keys)
    ensures SumOver(keys, One(r, p)) == if r.newSelector in keys && p(r) then 1 else 0
  {
    if keys != [] {
      SumOfOne(keys[1..], r, p);
      assert r.newSelector in keys <==> r.newSelector == keys[0] || r.newSelector in keys[1..];
    }
  }

  /** Grouping is a partition: the groups' counts add up to the whole count. */
  lemma {:induction false} PartitionSum(records: seq<HealingRecord>, keys: seq<string>, p: HealingRecord -> bool)
    requires Distinct(keys) && forall r :: r in records ==> r.newSelector in keys
    ensures SumOver(keys, CountIn(records, p)) == |Filter(records, p)|
  {
    if records == [] {
      ZeroSum(keys, p);
    } else {
      var r, rest := records[0], records[1..];
      assert r in records && forall x :: x in rest ==> x in records;
      PartitionSum(rest, keys, p);
      SumOfOne(keys, r, p);
      SumOfSums(keys, CountIn(rest, p), One(r, p), CountIn(records, p));
    }
  }

  lemma {:induction false} ZeroSum(keys: seq<string>, p: HealingRecord -> bool)
    ensures SumOver(keys, CountIn([], p)) == 0
  {
    if keys != [] {
      ZeroSum(keys[1..], p);
    }
  }

  // ---- One pair ----

  /** Every record of a pair is counted once, as a success, a failure or inconclusive. */
  lemma {:induction false} VerdictsPartition(records: seq<HealingRecord>)
    ensures |Filter(records, IsSuccess)| + |Filter(records, IsRejected)| + |Filter(records, IsInconclusive)| == |records|
  {
    if records != [] {
      VerdictsPartition(records[1..]);
      var v := records[0].validation;
      if v.Some? {
        assert if v.value then v == Some(true) else v == Some(false);
      }
    }
  }

  lemma {:induction false} ConfidenceSumBounds(records: seq<HealingRecord>)
    requires forall r :: r in records ==> 0.0 <= r.confidence <= 1.0
    ensures 0.0 <= ConfidenceSum(records) <= |records| as real
  {
    if records != [] {
      assert records[0] in records && forall r :: r in records[1..] ==> r in records;
      ConfidenceSumBounds(records[1..]);
    }
  }

  lemma {:induction false} StatsConserveRecords(m: InMemoryStore, oldSelector: string, newSelector: string)
    requires m.Valid() && forall r :: Healing(r) in m.log ==> 0.0 <= r.confidence <= 1.0
    ensures var s := GetReplacementStats(m, oldSelector, newSelector);
            var pair := Filter(HealingHistory(m.log, oldSelector), ForReplacement(newSelector));
            && s.successes + s.failures + s.inconclusive == s.attempts
            && s.attempts == (if |pair| < 20 then |pair| else 20)
            && 0.0 <= SuccessRate(s) <= 1.0 && 0.0 <= s.avgConfidence <= 1.0
            && s.lastUsed == (if pair == [] then None else Some(pair[0].timestamp))
            && ComputeHistoryScore(m, oldSelector, newSelector) == SuccessRate(s)
  {
    ReplacementsAreFilteredHistory(m, oldSelector, newSelector, PAIR_LIMIT);
    var history := HealingHistory(m.log, oldSelector);
    var pair := Filter(history, ForReplacement(newSelector));
    var records := Limit(pair, PAIR_LIMIT);
    VerdictsPartition(records);
    forall r | r in records ensures 0.0 <= r.confidence <= 1.0 {
      FilterMember(history, ForReplacement(newSelector), r);
      SortMember(HealingsOf(m.log, oldSelector), HealingTime, r);
      HealingsOfMember(m.log, oldSelector, r);
    }
    ConfidenceSumBounds(records);
    if records != [] {
      var n, sum := |records| as real, ConfidenceSum(records);
      Fraction(sum, n);
      var avg := sum / n;
      assert 0 as real / 10000.0 == 0.0 && 10000 as real / 10000.0 == 1.0;
      Round4Between(0, if avg > 1.0 then 1.0 else avg, 10000);
      SortSorted(HealingsOf(m.log, oldSelector), HealingTime);
      FilterSort(HealingsOf(m.log, oldSelector), HealingTime, ForReplacement(newSelector));
      SortSorted(Filter(HealingsOf(m.log, oldSelector), ForReplacement(newSelector)), HealingTime);
      SortOfSorted(records, HealingTime);
      Fraction(|Filter(records, IsSuccess)| as real, n);
    }
  }

  lemma Fraction(a: real, n: real)
    requires 0.0 <= a <= n && n > 0.0
    ensures 0.0 <= a / n <= 1.0
  {
  }

  // ---- One selector ----

  /** The newest 20 records of one pair among the records of a selector. */
  function NewestOfPair(all: seq<HealingRecord>, k: string): seq<HealingRecord> {
    Limit(SortDesc(Filter(all, ForReplacement(k)), HealingTime), PAIR_LIMIT)
  }

  function StatsFor(selector: string, all: seq<HealingRecord>): string -> ReplacementStats {
    (k: string) => StatsOf(selector, k, NewestOfPair(all, k))
  }

  function Attempts(f: string -> ReplacementStats): string -> nat { (k: string) => f(k).attempts }
  function Successes(f: string -> ReplacementStats): string -> nat { (k: string) => f(k).successes }
  function Failures(f: string -> ReplacementStats): string -> nat { (k: string) => f(k).failures }

  lemma StatsOfPair(m: InMemoryStore, selector: string, k: string)
    ensures GetReplacementStats(m, selector, k) == StatsFor(selector, Lookup(m.healing, selector))(k)
  {
  }

  /** The loop that asks for each pair's statistics and adds them up. */
  method CollectStats(m: InMemoryStore, selector: string, keys: seq<string>)
    returns (stats: seq<ReplacementStats>, successes: nat, failures: nat)
    ensures var f := StatsFor(selector, Lookup(m.healing, selector));
            stats == Map(keys, f) && successes == SumOver(keys, Successes(f)) && failures == SumOver(keys, Failures(f))
  {
    ghost var f := StatsFor(selector, Lookup(m.healing, selector));
    stats, successes, failures := [], 0, 0;
    for i := 0 to |keys|
      invariant stats == Map(keys[..i], f)
      invariant successes == SumOver(keys[..i], Successes(f))
      invariant failures == SumOver(keys[..i], Failures(f))
    {
      var s := GetReplacementStats(m, selector, keys[i]);
      StatsOfPair(m, selector, keys[i]);
      assert keys[..i + 1] == keys[..i] + [keys[i]];
      SumOverAppend(keys[..i], keys[i], Successes(f));
      SumOverAppend(keys[..i], keys[i], Failures(f));
      assert Map(keys[..i + 1], f) == Map(keys[..i], f) + [s];
      stats, successes, failures := stats + [s], successes + s.successes, failures + s.failures;
    }
    assert keys[..|keys|] == keys;
  }

  method GetSelectorHistory(m: InMemoryStore, selector: string) returns (h: SelectorHistory)
    ensures var records := m.GetHealingHistory(selector, 100);
            var f := StatsFor(selector, Lookup(m.healing, selector));
            h == SelectorHistory(
              selector, |records|, SumOver(Keys(records), Successes(f)), SumOver(Keys(records), Failures(f)),
              |Keys(records)|, SortDesc(Map(Keys(records), f), SuccessRate))
  {
    var records := m.GetHealingHistory(selector, SELECTOR_LIMIT);
    if records == [] {
      assert Map([], StatsFor(selector, Lookup(m.healing, selector))) == [];
      return SelectorHistory(selector, 0, 0, 0, 0, []);
    }
    var keys, groups := GroupByReplacement(records);
    var stats, successes, failures := CollectStats(m, selector, keys);
    return SelectorHistory(selector, |records|, successes, failures, |keys|, SortDesc(stats, SuccessRate));
  }

  lemma {:induction false} CappedSum(keys: seq<string>, f: string -> nat, capped: string -> nat)
    requires forall k :: k in keys ==> capped(k) == if f(k) < 20 then f(k) else 20
    ensures SumOver(keys, capped) <= SumOver(keys, f)
    ensures SumOver(keys, capped) == SumOver(keys, f) <==> forall k :: k in keys ==> f(k) <= 20
  {
    if keys != [] {
      assert keys[0] in keys && forall k :: k in keys[1..] ==> k in keys;
      CappedSum(keys[1..], f, capped);
      assert forall k :: k in keys ==> k == keys[0] || k in keys[1..];
    }
  }

  lemma {:induction false} SumAgree(keys: seq<string>, f: string -> nat, g: string -> nat)
    requires forall k :: k in keys ==> f(k) == g(k)
    ensures SumOver(keys, f) == SumOver(keys, g)
  {
    if keys != [] {
      assert keys[0] in keys && forall k :: k in keys[1..] ==> k in keys;
      SumAgree(keys[1..], f, g);
    }
  }

  /** The attempts counted for a pair are its records, up to 20. */
  lemma AttemptsAreCapped(selector: string, all: seq<HealingRecord>, k: string)
    ensures var n := |Filter(all, ForReplacement(k))|;
            Attempts(StatsFor(selector, all))(k) == if n < 20 then n else 20
    ensures CountIn(all, Any)(k) == |Filter(all, ForReplacement(k))|
  {
    SortMultiset(Filter(all, ForReplacement(k)), HealingTime);
    FilterAgree(all, ForReplacement(k), Both(k, Any));
  }

  lemma GroupAttempts(selector: string, all: seq<HealingRecord>, keys: seq<string>)
    requires Distinct(keys) && forall r :: r in all ==> r.newSelector in keys
    ensures var total := SumOver(keys, Attempts(StatsFor(selector, all)));
            && total <= |all|
            && (total == |all| <==> forall k :: k in keys ==> |Filter(all, ForReplacement(k))| <= 20)
  {
    PartitionSum(all, keys, Any);
    AnySelectsAll(all);
    var counts, attempts := CountIn(all, Any), Attempts(StatsFor(selector, all));
    forall k | k in keys
      ensures counts(k) == |Filter(all, ForReplacement(k))|
      ensures attempts(k) == if counts(k) < PAIR_LIMIT then counts(k) else PAIR_LIMIT
    {
      AttemptsAreCapped(selector, all, k);
    }
    CappedSum(keys, counts, attempts);
    if SumOver(keys, attempts) == |all| {
      forall k | k in keys ensures |Filter(all, ForReplacement(k))| <= PAIR_LIMIT {
        assert counts(k) <= PAIR_LIMIT;
      }
    }
  }

  lemma GroupVerdicts(selector: string, all: seq<HealingRecord>, keys: seq<string>)
    requires Distinct(keys) && forall r :: r in all ==> r.newSelector in keys
    requires forall k :: k in keys ==> |Filter(all, ForReplacement(k))| <= 20
    ensures SumOver(keys, Successes(StatsFor(selector, all))) == |Filter(all, IsSuccess)|
    ensures SumOver(keys, Failures(StatsFor(selector, all))) == |Filter(all, IsRejected)|
  {
    var successes, failures := Successes(StatsFor(selector, all)), Failures(StatsFor(selector, all));
    forall k | k in keys
      ensures successes(k) == |Filter(NewestOfPair(all, k), IsSuccess)|
      ensures failures(k) == |Filter(NewestOfPair(all, k), IsRejected)|
    {
      VerdictsOfPair(selector, all, k);
    }
    VerdictTotals(all, keys, IsSuccess, successes);
    VerdictTotals(all, keys, IsRejected, failures);
  }

  lemma VerdictsOfPair(selector: string, all: seq<HealingRecord>, k: string)
    ensures Successes(StatsFor(selector, all))(k) == |Filter(NewestOfPair(all, k), IsSuccess)|
    ensures Failures(StatsFor(selector, all))(k) == |Filter(NewestOfPair(all, k), IsRejected)|
  {
  }

  /** The keys of a selector's history: one for each replacement, none missing. */
  lemma KeysCover(all: seq<HealingRecord>)
    ensures var keys := Keys(SortDesc(all, HealingTime));
            Distinct(keys) && forall r :: r in all ==> r.newSelector in keys
  {
    var sorted := SortDesc(all, HealingTime);
    KeysDistinct(sorted);
    forall r | r in all ensures r.newSelector in Keys(sorted) {
      SortMember(all, HealingTime, r);
    }
  }

  /** Per-replacement attempts, successes and failures of some records, against the records themselves. */
  ghost predicate Conserved(selector: string, all: seq<HealingRecord>, keys: seq<string>) {
    var f := StatsFor(selector, all);
    && SumOver(keys, Attempts(f)) <= |all|
    && (SumOver(keys, Attempts(f)) == |all| <==>
         forall k :: k in keys ==> |Filter(all, ForReplacement(k))| <= PAIR_LIMIT)
    && (SumOver(keys, Attempts(f)) == |all| ==>
         && SumOver(keys, Successes(f)) == |Filter(all, IsSuccess)|
         && SumOver(keys, Failures(f)) == |Filter(all, IsRejected)|)
  }

  lemma GroupsConserve(selector: string, all: seq<HealingRecord>, keys: seq<string>)
    requires Distinct(keys) && forall r :: r in all ==> r.newSelector in keys
    ensures Conserved(selector, all, keys)
  {
    GroupAttempts(selector, all, keys);
    if SumOver(keys, Attempts(StatsFor(selector, all))) == |all| {
      GroupVerdicts(selector, all, keys);
    }
  }

  lemma NewestAreAll(m: InMemoryStore, selector: string)
    requires m.Valid() && |HealingsOf(m.log, selector)| <= 100
    ensures var all := HealingsOf(m.log, selector);
            && m.GetHealingHistory(selector, 100) == SortDesc(all, HealingTime)
            && |SortDesc(all, HealingTime)| == |all| && Lookup(m.healing, selector) == all
  {
    FoldLookup(m.log, selector);
    SortMultiset(HealingsOf(m.log, selector), HealingTime);
  }

  /**
   * Conservation.  For a selector with at most 100 records the per-replacement attempts never exceed
   * the number of records, and partition it exactly when no pair has more than 20; then the success
   * and failure totals count every record once.
   */
  lemma {:induction false} HistoryConservesRecords(m: InMemoryStore, selector: string)
    requires m.Valid() && |HealingsOf(m.log, selector)| <= 100
    ensures var all, records := HealingsOf(m.log, selector), m.GetHealingHistory(selector, 100);
            && |records| == |all| && Lookup(m.healing, selector) == all
            && Conserved(selector, all, Keys(records))
  {
    NewestAreAll(m, selector);
    KeysCover(HealingsOf(m.log, selector));
    GroupsConserve(selector, HealingsOf(m.log, selector), Keys(m.GetHealingHistory(selector, SELECTOR_LIMIT)));
  }

  /** The attempts of each replacement: its records up to 20. */
  function Capped(all: seq<HealingRecord>): string -> nat {
    (k: string) =>
      var n := |Filter(all, ForReplacement(k))|;
      if n < PAIR_LIMIT then n else PAIR_LIMIT
  }

  lemma AttemptsAreCappedCounts(selector: string, all: seq<HealingRecord>, keys: seq<string>)
    ensures SumOver(keys, Attempts(StatsFor(selector, all))) == SumOver(keys, Capped(all))
  {
    forall k | k in keys ensures Attempts(StatsFor(selector, all))(k) == Capped(all)(k) {
      AttemptsAreCapped(selector, all, k);
    }
    SumAgree(keys, Attempts(StatsFor(selector, all)), Capped(all));
  }

  /**
   * For any number of records: attempts are counted over all records of a pair, up to 20, the healings over the newest
   * 100.  So there are more attempts than healings iff there are more than 100 records and the capped counts of the
   * replacements among the newest 100 add up to more than 100.
   */
  lemma {:induction false} AttemptsExceedHealings(m: InMemoryStore, selector: string)
    requires m.Valid()
    ensures var all, records := HealingsOf(m.log, selector), m.GetHealingHistory(selector, 100);
            var attempts := SumOver(Keys(records), Attempts(StatsFor(selector, Lookup(m.healing, selector))));
            && |records| == (if |all| < 100 then |all| else 100)
            && attempts == SumOver(Keys(records), Capped(all))
            && (attempts > |records|
                <==> |all| > 100 && SumOver(Keys(records), Capped(all)) > 100)
  {
    var all := HealingsOf(m.log, selector);
    var records := m.GetHealingHistory(selector, SELECTOR_LIMIT);
    FoldLookup(m.log, selector);
    SortMultiset(all, HealingTime);
    AttemptsAreCappedCounts(selector, all, Keys(records));
    if |all| <= SELECTOR_LIMIT {
      HistoryConservesRecords(m, selector);
    }
  }

  // ---- A history with more attempts than healings ----

  const NAMES: seq<string> := ["a", "b", "c", "d", "e", "f"]

  function RecordFor(selector: string, k: string): HealingRecord {
    HealingRecord("h", "t", selector, k, 1.0, Some(true), 0.0)
  }

  /** One record for each of six replacements. */
  function Round(selector: string): (records: seq<HealingRecord>)
    ensures |records| == 6
  {
    seq(6, i requires 0 <= i < 6 => RecordFor(selector, NAMES[i]))
  }

  function Rounds(selector: string, n: nat): (records: seq<HealingRecord>)
    ensures |records| == 6 * n
    ensures forall r :: r in records ==> r.timestamp == 0.0
  {
    if n == 0 then [] else Rounds(selector, n - 1) + Round(selector)
  }

  lemma {:induction false} RoundsCount(selector: string, n: nat, i: nat)
    requires i < 6
    ensures |Filter(Rounds(selector, n), ForReplacement(NAMES[i]))| >= n
  {
    if n > 0 {
      var p := ForReplacement(NAMES[i]);
      RoundsCount(selector, n - 1, i);
      FilterAppend(Rounds(selector, n - 1), Round(selector), p);
      assert Round(selector)[i] in Round(selector);
      FilterMember(Round(selector), p, Round(selector)[i]);
    }
  }

  lemma {:induction false} RoundsStart(selector: string, n: nat)
    requires n > 0
    ensures Round(selector) <= Rounds(selector, n)
  {
    if n > 1 {
      RoundsStart(selector, n - 1);
    } else {
      assert Rounds(selector, 0) + Round(selector) == Round(selector);
    }
  }

  lemma {:induction false} SumAtLeast(keys: seq<string>, f: string -> nat, wanted: seq<string>)
    requires Distinct(wanted) && (forall k :: k in wanted ==> k in keys && f(k) == 20)
    ensures SumOver(keys, f) >= 20 * |wanted|
    decreases keys
  {
    assert wanted != [] ==> wanted[0] in wanted;
    if keys != [] {
      var k := keys[0];
      if k in wanted {
        var i :| 0 <= i < |wanted| && wanted[i] == k;
        var rest := wanted[..i] + wanted[i + 1..];
        forall x | x in rest ensures x in wanted && x != k {
          var j :| 0 <= j < |rest| && rest[j] == x;
          assert x == if j < i then wanted[j] else wanted[j + 1];
        }
        SumAtLeast(keys[1..], f, rest);
      } else {
        SumAtLeast(keys[1..], f, wanted);
      }
    }
  }

  /** In n rounds, 20 or more, each of the six replacements is among the first records and has 20 attempts. */
  lemma {:induction false} RoundsAreFull(selector: string, n: nat, records: seq<HealingRecord>)
    requires n >= 20 && Round(selector) <= records
    ensures SumOver(Keys(records), Capped(Rounds(selector, n))) >= 20 * |NAMES|
  {
    var f := Capped(Rounds(selector, n));
    KeysDistinct(records);
    forall k | k in NAMES ensures k in Keys(records) && f(k) == PAIR_LIMIT {
      var i :| 0 <= i < 6 && NAMES[i] == k;
      RoundsCount(selector, n, i);
      assert records[i] == Round(selector)[i] && records[i] in records;
    }
    SumAtLeast(Keys(records), f, NAMES);
  }

  lemma NewestOfRounds(m: InMemoryStore, selector: string, all: seq<HealingRecord>, first: seq<HealingRecord>)
    requires m.Valid() && HealingsOf(m.log, selector) == all && Descending(all, HealingTime)
    requires first <= all && |first| <= 100 <= |all|
    ensures first <= m.GetHealingHistory(selector, 100)
  {
    FoldLookup(m.log, selector);
    SortOfSorted(all, HealingTime);
  }

  lemma ManyAttempts(m: InMemoryStore, selector: string, all: seq<HealingRecord>, records: seq<HealingRecord>)
    requires m.Valid() && HealingsOf(m.log, selector) == all && |all| >= 100
    requires records == m.GetHealingHistory(selector, 100) && SumOver(Keys(records), Capped(all)) >= 120
    ensures |records| == 100
    ensures SumOver(Keys(records), Attempts(StatsFor(selector, Lookup(m.healing, selector)))) >= 120
  {
    AttemptsExceedHealings(m, selector);
  }

  /** Twenty rounds or more, recorded at one time: 100 healings, and 120 attempts or more. */
  lemma {:induction false} TwentyRounds(m: InMemoryStore, selector: string, n: nat, records: seq<HealingRecord>)
    requires m.Valid() && n >= 20 && HealingsOf(m.log, selector) == Rounds(selector, n)
    requires records == m.GetHealingHistory(selector, 100)
    ensures |records| == 100
    ensures SumOver(Keys(records), Attempts(StatsFor(selector, Lookup(m.healing, selector)))) >= 120
  {
    RoundsStart(selector, n);
    NewestOfRounds(m, selector, Rounds(selector, n), Round(selector));
    RoundsAreFull(selector, n, records);
    ManyAttempts(m, selector, Rounds(selector, n), records);
  }

  predicate Any(r: HealingRecord) { true }

  lemma {:induction false} AnySelectsAll(records: seq<HealingRecord>)
    ensures Filter(records, Any) == records
  {
    if records != [] {
      AnySelectsAll(records[1..]);
    }
  }

  lemma VerdictTotals(all: seq<HealingRecord>, keys: seq<string>, p: HealingRecord -> bool, count: string -> nat)
    requires Distinct(keys) && forall r :: r in all ==> r.newSelector in keys
    requires forall k :: k in keys ==> |Filter(all, ForReplacement(k))| <= 20
    requires forall k :: k in keys ==> count(k) == |Filter(NewestOfPair(all, k), p)|
    ensures SumOver(keys, count) == |Filter(all, p)|
  {
    PartitionSum(all, keys, p);
    forall k | k in keys ensures count(k) == CountIn(all, p)(k) {
      var group := Filter(all, ForReplacement(k));
      SortMultiset(group, HealingTime);
      FilterSort(group, HealingTime, p);
      SortMultiset(Filter(group, p), HealingTime);
      FilterFilter(all, ForReplacement(k), p, Both(k, p));
    }
    SumAgree(keys, count, CountIn(all, p));
  }

  // ---- The evidence in terms of the records' fields ----

  /** The positions of the records with this verdict. */
  function WithVerdict(records: seq<HealingRecord>, verdict: Option<bool>): set<int> {
    set i | 0 <= i < |records| && records[i].validation == verdict
  }

  lemma VerdictCounts(records: seq<HealingRecord>)
    ensures |Filter(records, IsSuccess)| == |WithVerdict(records, Some(true))|
    ensures |Filter(records, IsRejected)| == |WithVerdict(records, Some(false))|
    ensures |Filter(records, IsInconclusive)| == |WithVerdict(records, None)|
  {
    FilterCounts(records, IsSuccess);
    FilterCounts(records, IsRejected);
    FilterCounts(records, IsInconclusive);
    assert Passing(records, IsSuccess) == WithVerdict(records, Some(true));
    assert Passing(records, IsRejected) == WithVerdict(records, Some(false));
    assert Passing(records, IsInconclusive) == WithVerdict(records, None);
  }

  lemma MeanConfidence(records: seq<HealingRecord>) returns (mean: real)
    requires records != [] && forall r :: r in records ==> 0.0 <= r.confidence <= 1.0
    ensures mean * |records| as real == ConfidenceSum(records) && mean <= 1.0
    ensures mean == ConfidenceSum(records) / |records| as real
  {
    mean := ConfidenceSum(records) / |records| as real;
    ConfidenceSumBounds(records);
    Fraction(ConfidenceSum(records), |records| as real);
  }

  /**
   * The statistics of a pair are those of its newest 20 records (ReplacementsByField says which these are): how many
   * carry each verdict, the mean confidence to four places, and the time of the newest.
   */
  lemma {:induction false} StatsByField(m: InMemoryStore, oldSelector: string, newSelector: string)
    requires m.Valid() && forall r :: Healing(r) in m.log ==> 0.0 <= r.confidence <= 1.0
    ensures var h, s := m.GetHealingHistoryForReplacement(oldSelector, newSelector, 20),
                        GetReplacementStats(m, oldSelector, newSelector);
            && s.oldSelector == oldSelector && s.newSelector == newSelector && s.attempts == |h|
            && s.successes == |WithVerdict(h, Some(true))| && s.failures == |WithVerdict(h, Some(false))|
            && s.inconclusive == |WithVerdict(h, None)|
            && s.lastUsed == (if h == [] then None else Some(h[0].timestamp))
            && (h != [] ==> var mean := ConfidenceSum(h) / |h| as real;
                            mean - 0.00005 <= s.avgConfidence <= mean + 0.00005)
            && (h == [] ==> s.avgConfidence == 0.0 && ComputeHistoryScore(m, oldSelector, newSelector) == 0.0)
            && (s.attempts > 0 ==>
                  ComputeHistoryScore(m, oldSelector, newSelector) == s.successes as real / s.attempts as real)
  {
    var h := m.GetHealingHistoryForReplacement(oldSelector, newSelector, 20);
    ReplacementsByField(m, oldSelector, newSelector, 20);
    VerdictCounts(h);
    if h != [] {
      var mean := MeanConfidence(h);
      var _ := Round4Near(mean);
      assert Descending(h, HealingTime);
      SortOfSorted(h, HealingTime);
    }
  }

  ghost predicate NewestValidated(records: seq<HealingRecord>, r: HealingRecord) {
    && r in records && r.validation == Some(true)
    && forall x :: x in records && x.validation == Some(true) ==> x.timestamp <= r.timestamp
  }

  /** The last successful replacement is the newest validated one among a selector's newest 100 records, if any. */
  lemma {:induction false} LastSuccessByField(m: InMemoryStore, selector: string)
    ensures var h, found := m.GetHealingHistory(selector, 100), GetLastSuccessfulReplacement(m, selector);
            && (found == None <==> forall r :: r in h ==> r.validation != Some(true))
            && (found.Some? ==> exists r :: NewestValidated(h, r) && r.newSelector == found.value)
  {
    var h := m.GetHealingHistory(selector, 100);
    var successes := Filter(h, IsSuccess);
    forall r ensures r in successes <==> r in h && r.validation == Some(true) {
      FilterMember(h, IsSuccess, r);
    }
    if successes != [] {
      FirstMaxIsMax(successes, HealingTime);
      assert successes[0] in successes;
      assert forall r :: r in successes ==> HealingTime(r) == r.timestamp;
      assert NewestValidated(h, FirstMax(successes, HealingTime));
    }
  }

  /** With at most 100 records, and 20 of each pair, the totals of a selector are its records with that verdict. */
  lemma {:induction false} TotalsByField(m: InMemoryStore, selector: string)
    requires m.Valid() && |HealingsOf(m.log, selector)| <= 100
    requires forall k :: |Filter(HealingsOf(m.log, selector), ForReplacement(k))| <= 20
    ensures var all, keys := HealingsOf(m.log, selector), Keys(m.GetHealingHistory(selector, 100));
            var f := StatsFor(selector, Lookup(m.healing, selector));
            && SumOver(keys, Successes(f)) == |WithVerdict(all, Some(true))|
            && SumOver(keys, Failures(f)) == |WithVerdict(all, Some(false))|
  {
    HistoryConservesRecords(m, selector);
    VerdictCounts(HealingsOf(m.log, selector));
  }
}
