/** The two-stage search for a replacement locator (engine/healer.py), over any way of scoring a locator. */
module HealingSearch {
  import opened Sequences
  import opened HealingScore

  const AMBIGUITY_MARGIN := 0.05

  datatype Candidate = Candidate(locator: string, score: real, signals: Signals)

  datatype Strategy = NoStrategy | Fallback(index: nat) | ByFingerprint

  datatype Report = Report(
    original: string, candidates: seq<Candidate>, selected: Option<string>, confidence: real, strategy: Strategy)

  /**
   * What the search works on: the failed locator, the stored fallbacks, the locators that a scan of the page
   * offers (only asked for with a stored fingerprint), and how a locator that resolves is scored.
   */
  datatype Search = Search(
    primary: string, fallbacks: seq<string>, fingerprint: bool, extracted: seq<string>, threshold: real,
    assess: string -> Option<Candidate>)

  ghost predicate Named(q: Search) {
    forall l :: q.assess(l).Some? ==> q.assess(l).value.locator == l
  }

  function ScoreOf(c: Candidate): real { c.score }

  /** The candidates that a list of locators adds: the new ones among them that resolve, in order. */
  function Evaluated(q: Search, locators: seq<string>, tried: set<string>): seq<Candidate> {
    if locators == [] then []
    else
      var l := locators[0];
      (if l !in tried && q.assess(l).Some? then [q.assess(l).value] else [])
      + Evaluated(q, locators[1..], tried + {l})
  }

  ghost predicate NoLocatorTwice(s: seq<Candidate>) {
    forall i, j :: 0 <= i < j < |s| ==> s[i].locator != s[j].locator
  }

  /** Every candidate is a new locator that resolves; no locator is evaluated twice. */
  lemma {:induction false} EvaluatedOnce(q: Search, locators: seq<string>, tried: set<string>)
    requires Named(q)
    ensures forall c :: c in Evaluated(q, locators, tried) ==>
      c.locator in locators && c.locator !in tried && q.assess(c.locator) == Some(c)
    ensures NoLocatorTwice(Evaluated(q, locators, tried))
  {
    if locators != [] {
      var l := locators[0];
      var rest := Evaluated(q, locators[1..], tried + {l});
      EvaluatedOnce(q, locators[1..], tried + {l});
      forall c | c in rest ensures c.locator != l && c.locator in locators && c.locator !in tried {
        assert c.locator in locators[1..] && c.locator !in tried + {l};
      }
      var e := Evaluated(q, locators, tried);
      if l in tried || q.assess(l).None? {
        assert e == rest;
      } else {
        assert e == [q.assess(l).value] + rest;
        assert forall j :: 1 <= j < |e| ==> e[j] == rest[j - 1] && e[j] in rest;
      }
    }
  }

  /** And no new locator that resolves is left out. */
  lemma {:induction false} EvaluatedAll(q: Search, locators: seq<string>, tried: set<string>, l: string)
    requires l in locators && l !in tried && q.assess(l).Some?
    ensures q.assess(l).value in Evaluated(q, locators, tried)
  {
    if locators[0] != l {
      EvaluatedAll(q, locators[1..], tried + {locators[0]}, l);
    }
  }

  lemma {:induction false} EvaluatedAppend(q: Search, a: seq<string>, b: seq<string>, tried: set<string>)
    ensures Evaluated(q, a + b, tried) == Evaluated(q, a, tried) + Evaluated(q, b, tried + Elements(a))
  {
    if a == [] {
      assert a + b == b && tried + Elements(a) == tried;
    } else {
      assert (a + b)[1..] == a[1..] + b;
      EvaluatedAppend(q, a[1..], b, tried + {a[0]});
      assert tried + {a[0]} + Elements(a[1..]) == tried + Elements(a);
    }
  }

  /** What looking at one more locator adds. */
  lemma EvaluatedStep(q: Search, locators: seq<string>, i: nat, tried: set<string>)
    requires i < |locators|
    ensures var l := locators[i];
            Evaluated(q, locators[..i + 1], tried) == Evaluated(q, locators[..i], tried)
              + (if l in tried + Elements(locators[..i]) || q.assess(l).None? then [] else [q.assess(l).value])
    ensures Elements(locators[..i + 1]) == Elements(locators[..i]) + {locators[i]}
  {
    assert locators[..i + 1] == locators[..i] + [locators[i]];
    EvaluatedAppend(q, locators[..i], [locators[i]], tried);
    assert [locators[i]][1..] == [];
  }

  function ReportOf(q: Search, candidates: seq<Candidate>, selected: Option<Candidate>, strategy: Strategy): Report {
    Report(q.primary, SortDesc(candidates, ScoreOf),
           if selected.Some? then Some(selected.value.locator) else None,
           if selected.Some? then selected.value.score else 0.0, strategy)
  }

  // ---- What a selection must satisfy ----

  ghost predicate NoneReaches(q: Search, candidates: seq<Candidate>) {
    forall c :: c in candidates ==> c.score < q.threshold
  }

  /** Candidate k is the first to reach the threshold. */
  ghost predicate FirstReaching(q: Search, candidates: seq<Candidate>, k: nat) {
    k < |candidates| && candidates[k].score >= q.threshold && NoneReaches(q, candidates[..k])
  }

  /** c reaches the threshold and is ahead of every other candidate (or of zero, alone) by the margin. */
  ghost predicate ClearWinner(q: Search, candidates: seq<Candidate>, c: Candidate) {
    && c in candidates && c.score >= q.threshold
    && (forall d :: d in candidates && d != c ==> c.score - d.score >= 0.05)
    && (|candidates| == 1 ==> c.score >= 0.05)
  }

  /** The source's rule: the best of the ranking, if it is ahead of the next. */
  function SelectBest(q: Search, all: seq<Candidate>): Option<Candidate> {
    SortMultiset(all, ScoreOf);
    var ranked := SortDesc(all, ScoreOf);
    if all == [] || ranked[0].score < q.threshold then None
    else if ranked[0].score - (if |ranked| > 1 then ranked[1].score else 0.0) >= AMBIGUITY_MARGIN then Some(ranked[0])
    else None
  }

  /** Comparing the two best of the ranking finds exactly the clear winner. */
  lemma SelectBestIsClearWinner(q: Search, all: seq<Candidate>, c: Candidate)
    requires Distinct(all)
    ensures SelectBest(q, all) == Some(c) <==> ClearWinner(q, all, c)
  {
    var ranked := SortDesc(all, ScoreOf);
    SortMultiset(all, ScoreOf);
    SortDistinct(all, ScoreOf);
    SortSorted(all, ScoreOf);
    if all != [] {
      SortMember(all, ScoreOf, ranked[0]);
      SortMember(all, ScoreOf, c);
      if c in all {
        Placed(ranked, c);
      }
      if |ranked| > 1 {
        SortMember(all, ScoreOf, ranked[1]);
        forall d | d in all && d != ranked[0] ensures d.score <= ranked[1].score {
          SortMember(all, ScoreOf, d);
          Placed(ranked, d);
        }
      } else {
        forall d | d in all ensures d == ranked[0] {
          SortMember(all, ScoreOf, d);
        }
      }
    }
  }

  lemma Placed(ranked: seq<Candidate>, d: Candidate)
    requires Descending(ranked, ScoreOf) && d in ranked
    ensures ScoreOf(ranked[0]) >= ScoreOf(d)
    ensures |ranked| > 1 && d != ranked[0] ==> ScoreOf(ranked[1]) >= ScoreOf(d)
  {
    var i :| 0 <= i < |ranked| && ranked[i] == d;
  }

  /** Everything the search may evaluate: fallbacks first, then what the page scan offers. */
  function Everything(q: Search): seq<Candidate> {
    Evaluated(q, q.fallbacks + (if q.fingerprint then q.extracted else []), {q.primary})
  }

  /**
   * What the search must answer.  A fallback is selected iff one reaches the threshold, and then it is the
   * first that does; otherwise, with a stored fingerprint, the clear winner of everything evaluated is
   * selected iff there is one.  The report lists all that was evaluated, best first.
   */
  ghost predicate Outcome(q: Search, r: Report) {
    var first := Evaluated(q, q.fallbacks, {q.primary});
    match r.strategy
    case Fallback(index) =>
      && index < |q.fallbacks| && q.fallbacks[index] !in q.fallbacks[..index]
      && exists k: nat :: FirstReaching(q, first, k) && first[k].locator == q.fallbacks[index]
                          && r == ReportOf(q, first[..k + 1], Some(first[k]), r.strategy)
    case ByFingerprint =>
      && NoneReaches(q, first) && q.fingerprint
      && exists c :: ClearWinner(q, Everything(q), c) && r == ReportOf(q, Everything(q), Some(c), ByFingerprint)
    case NoStrategy =>
      && NoneReaches(q, first) && r == ReportOf(q, Everything(q), None, NoStrategy)
      && (q.fingerprint ==> forall c :: !ClearWinner(q, Everything(q), c))
  }

  lemma Prefix(q: Search, i: nat)
    requires i < |q.fallbacks|
    ensures Evaluated(q, q.fallbacks[..i], {q.primary}) <= Evaluated(q, q.fallbacks, {q.primary})
    ensures Evaluated(q, q.fallbacks[..i + 1], {q.primary}) <= Evaluated(q, q.fallbacks, {q.primary})
  {
    assert q.fallbacks == q.fallbacks[..i] + q.fallbacks[i..];
    EvaluatedAppend(q, q.fallbacks[..i], q.fallbacks[i..], {q.primary});
    assert q.fallbacks == q.fallbacks[..i + 1] + q.fallbacks[i + 1..];
    EvaluatedAppend(q, q.fallbacks[..i + 1], q.fallbacks[i + 1..], {q.primary});
  }

  lemma Reached(q: Search, all: seq<Candidate>, earlier: seq<Candidate>, c: Candidate)
    requires earlier + [c] <= all && NoneReaches(q, earlier) && c.score >= q.threshold
    ensures FirstReaching(q, all, |earlier|) && all[|earlier|] == c && all[..|earlier| + 1] == earlier + [c]
  {
    assert all[..|earlier|] == earlier;
  }

  /** The fallback at position i, reaching the threshold after the earlier ones did not. */
  lemma FallbackOutcome(q: Search, i: nat, earlier: seq<Candidate>, c: Candidate)
    requires i < |q.fallbacks| && q.fallbacks[i] !in q.fallbacks[..i] && c.locator == q.fallbacks[i]
    requires Evaluated(q, q.fallbacks[..i + 1], {q.primary}) == earlier + [c]
    requires NoneReaches(q, earlier) && c.score >= q.threshold
    ensures Outcome(q, ReportOf(q, earlier + [c], Some(c), Fallback(i)))
  {
    Prefix(q, i);
    Reached(q, Evaluated(q, q.fallbacks, {q.primary}), earlier, c);
  }

  method TryFallbacks(q: Search) returns (candidates: seq<Candidate>, tried: set<string>, found: Option<nat>)
    requires Named(q)
    ensures found.None? ==> candidates == Evaluated(q, q.fallbacks, {q.primary}) && NoneReaches(q, candidates)
    ensures found.None? ==> tried == {q.primary} + Elements(q.fallbacks)
    ensures found.Some? ==> candidates != [] && found.value < |q.fallbacks|
    ensures found.Some? ==>
      Outcome(q, ReportOf(q, candidates, Some(candidates[|candidates| - 1]), Fallback(found.value)))
  {
    candidates, tried := [], {q.primary};
    for i := 0 to |q.fallbacks|
      invariant tried == {q.primary} + Elements(q.fallbacks[..i])
      invariant candidates == Evaluated(q, q.fallbacks[..i], {q.primary}) && NoneReaches(q, candidates)
    {
      EvaluatedStep(q, q.fallbacks, i, {q.primary});
      var locator := q.fallbacks[i];
      if locator in tried {
        continue;
      }
      tried := tried + {locator};
      var assessed := q.assess(locator);
      if assessed.None? {
        continue;
      }
      var candidate := assessed.value;
      if candidate.score >= q.threshold {
        FallbackOutcome(q, i, candidates, candidate);
        return candidates + [candidate], tried, Some(i);
      }
      candidates := candidates + [candidate];
    }
    assert q.fallbacks[..|q.fallbacks|] == q.fallbacks;
    found := None;
  }

  method ScanPage(q: Search, candidates0: seq<Candidate>, tried0: set<string>) returns (candidates: seq<Candidate>)
    requires tried0 == {q.primary} + Elements(q.fallbacks)
    requires candidates0 == Evaluated(q, q.fallbacks, {q.primary})
    ensures candidates == Evaluated(q, q.fallbacks + q.extracted, {q.primary})
  {
    candidates := candidates0;
    var tried := tried0;
    for i := 0 to |q.extracted|
      invariant tried == tried0 + Elements(q.extracted[..i])
      invariant candidates == candidates0 + Evaluated(q, q.extracted[..i], tried0)
    {
      EvaluatedStep(q, q.extracted, i, tried0);
      var locator := q.extracted[i];
      if locator in tried {
        continue;
      }
      tried := tried + {locator};
      var assessed := q.assess(locator);
      if assessed.Some? {
        candidates := candidates + [assessed.value];
      }
    }
    assert q.extracted[..|q.extracted|] == q.extracted;
    EvaluatedAppend(q, q.fallbacks, q.extracted, {q.primary});
  }

  /** `attempt_healing`, for a step that has a target */
  method AttemptHealing(q: Search) returns (r: Report)
    requires Named(q)
    ensures Outcome(q, r)
  {
    var candidates, tried, found := TryFallbacks(q);
    if found.Some? {
      return ReportOf(q, candidates, Some(candidates[|candidates| - 1]), Fallback(found.value));
    }
    ghost var first := candidates;
    if q.fingerprint {
      candidates := ScanPage(q, candidates, tried);
      var best := PickBest(q, candidates);
      EvaluatedOnce(q, q.fallbacks + q.extracted, {q.primary});
      forall c ensures best == Some(c) <==> ClearWinner(q, candidates, c) {
        SelectBestIsClearWinner(q, candidates, c);
      }
      if best.Some? {
        return ReportOf(q, candidates, best, ByFingerprint);
      }
    }
    assert q.fallbacks + [] == q.fallbacks;
    return ReportOf(q, candidates, None, NoStrategy);
  }

  method PickBest(q: Search, candidates: seq<Candidate>) returns (best: Option<Candidate>)
    ensures best == SelectBest(q, candidates)
  {
    var ranked := SortDesc(candidates, ScoreOf);
    SortMultiset(candidates, ScoreOf);
    if |ranked| > 0 && ranked[0].score >= q.threshold {
      var runnerUp := if |ranked| > 1 then ranked[1].score else 0.0;
      if ranked[0].score - runnerUp >= AMBIGUITY_MARGIN {
        return Some(ranked[0]);
      }
    }
    return None;
  }

  // ---- What every outcome guarantees ----

  lemma {:induction false} SelectedFallback(q: Search, r: Report) returns (k: nat)
    requires Outcome(q, r) && r.strategy.Fallback?
    ensures var first := Evaluated(q, q.fallbacks, {q.primary});
            FirstReaching(q, first, k) && r == ReportOf(q, first[..k + 1], Some(first[k]), r.strategy)
  {
    var first := Evaluated(q, q.fallbacks, {q.primary});
    k :| FirstReaching(q, first, k) && first[k].locator == q.fallbacks[r.strategy.index]
         && r == ReportOf(q, first[..k + 1], Some(first[k]), r.strategy);
  }

  /** The report is a descending permutation of what was evaluated, with no locator twice and never the primary. */
  lemma {:induction false} ReportListsEvaluated(q: Search, r: Report) returns (evaluated: seq<Candidate>)
    requires Named(q) && Outcome(q, r)
    ensures evaluated <= Everything(q) && multiset(r.candidates) == multiset(evaluated)
    ensures Descending(r.candidates, ScoreOf)
    ensures NoLocatorTwice(evaluated)
    ensures forall c :: c in evaluated ==> c.locator != q.primary
    ensures !r.strategy.Fallback? ==> evaluated == Everything(q)
  {
    evaluated := ReportedList(q, r);
    EvaluatedOnce(q, q.fallbacks + (if q.fingerprint then q.extracted else []), {q.primary});
    assert forall i :: 0 <= i < |evaluated| ==> evaluated[i] == Everything(q)[i];
    SortMultiset(evaluated, ScoreOf);
    SortSorted(evaluated, ScoreOf);
  }

  lemma ReportedList(q: Search, r: Report) returns (evaluated: seq<Candidate>)
    requires Outcome(q, r)
    ensures evaluated <= Everything(q) && r.candidates == SortDesc(evaluated, ScoreOf)
    ensures !r.strategy.Fallback? ==> evaluated == Everything(q)
  {
    evaluated := Everything(q);
    if r.strategy.Fallback? {
      var k := SelectedFallback(q, r);
      evaluated := Evaluated(q, q.fallbacks, {q.primary})[..k + 1];
      EvaluatedAppend(q, q.fallbacks, if q.fingerprint then q.extracted else [], {q.primary});
    }
  }

  /** What is selected resolves, is not the failed locator, and reaches the threshold. */
  lemma SelectedIsEvaluated(q: Search, r: Report) returns (c: Candidate)
    requires Named(q) && Outcome(q, r) && r.selected.Some?
    ensures r.selected == Some(c.locator) && r.confidence == c.score >= q.threshold
    ensures c.locator != q.primary && q.assess(c.locator) == Some(c)
  {
    if r.strategy.Fallback? {
      var k := SelectedFallback(q, r);
      c := Evaluated(q, q.fallbacks, {q.primary})[k];
      EvaluatedOnce(q, q.fallbacks, {q.primary});
    } else {
      c :| ClearWinner(q, Everything(q), c) && r == ReportOf(q, Everything(q), Some(c), ByFingerprint);
      EvaluatedOnce(q, q.fallbacks + q.extracted, {q.primary});
    }
  }

  /** A report names the failed locator; its confidence is the score of the selected candidate, and 0 without one. */
  lemma ReportedConfidence(q: Search, r: Report)
    requires Named(q) && Outcome(q, r)
    ensures r.original == q.primary && (r.selected == None ==> r.confidence == 0.0 && r.strategy == NoStrategy)
    ensures r.selected.Some? ==>
      r.strategy != NoStrategy && q.assess(r.selected.value).Some? && q.assess(r.selected.value).value.score == r.confidence
  {
    if r.selected.Some? {
      var c := SelectedIsEvaluated(q, r);
    }
  }
}

/** Healing a target with the fingerprint score (engine/healer.py). */
module Healer {
  import opened Sequences
  import opened WhiteSpace
  import opened Rounding
  import opened Fingerprints
  import opened HealingScore
  import opened HealingSearch

  const FALLBACK_WITHOUT_FINGERPRINT := 0.8

  // ---- The attributes a locator reads (`broken_attributes`) ----

  function KeyName(k: Key): string {
    match k
    case ID => "id" case NAME => "name" case PLACEHOLDER => "placeholder" case ARIA_LABEL => "aria-label"
    case ROLE => "role" case DATA_TESTID => "data-testid" case DATA_TEST_ID => "data-test-id" case TYPE => "type"
    case AUTOCOMPLETE => "autocomplete" case HREF => "href" case FOR => "for"
  }

  /** The characters of an attribute's name; `word` is the pattern's `\w`. */
  predicate InName(word: char -> bool, c: char) { word(c) || c == ':' || c == '-' }

  /** The name at the start of the text, as long as it goes. */
  function NameOf(word: char -> bool, text: string): string {
    if text == "" || !InName(word, text[0]) then "" else [text[0]] + NameOf(word, text[1..])
  }

  function Unspaced(text: string): (rest: string)
    ensures |rest| <= |text|
  {
    if text == "" || !IsSpace(text[0]) then text else Unspaced(text[1..])
  }

  /** The text goes on with `=`, or one of `~|^$*` and `=`. */
  predicate Compares(text: string) {
    text != "" && (text[0] == '=' || (|text| > 1 && text[0] in "~|^$*" && text[1] == '='))
  }

  /** Behind a bracket: a name, between spaces, that is compared with something. */
  predicate ReadsName(word: char -> bool, text: string, name: string) {
    var inside := Unspaced(text);
    && name != "" && NameOf(word, inside) == name && name <= inside && Compares(Unspaced(inside[|name|..]))
  }

  predicate Reads(word: char -> bool, locator: string, k: Key) {
    || (exists i :: 0 <= i < |locator| && locator[i] == '[' && ReadsName(word, locator[i + 1..], KeyName(k)))
    || (k == ID
        && exists i :: 0 <= i < |locator| - 1 && locator[i] == '#' && (word(locator[i + 1]) || locator[i + 1] == '-'))
  }

  /** They have changed by definition, and are ignored. */
  function Broken(word: char -> bool, locator: string): set<Key> {
    set k: Key | Reads(word, locator, k)
  }

  lemma NothingRead(word: char -> bool, locator: string)
    requires '[' !in locator && '#' !in locator
    ensures Broken(word, locator) == {}
  {
    assert forall i :: 0 <= i < |locator| ==> locator[i] in locator;
  }

  /** The attributes that are compared, by the name a selector reads them by. */
  const NAMES: map<string, Key> := map[
    "id" := ID, "name" := NAME, "placeholder" := PLACEHOLDER, "aria-label" := ARIA_LABEL, "role" := ROLE,
    "data-testid" := DATA_TESTID, "data-test-id" := DATA_TEST_ID, "type" := TYPE, "autocomplete" := AUTOCOMPLETE,
    "href" := HREF, "for" := FOR]

  /** What is needed of `\w`: small letters are in it; spaces and the characters of comparisons are not. */
  ghost predicate Letters(word: char -> bool) {
    && (forall c :: 'a' <= c <= 'z' ==> word(c))
    && (forall c :: IsSpace(c) || c in "=~|^$*" ==> !word(c))
  }

  lemma NamedByKey(n: string)
    requires n in NAMES
    ensures KeyName(NAMES[n]) == n
  {
  }

  lemma KeyByName(k: Key)
    ensures KeyName(k) in NAMES && NAMES[KeyName(k)] == k
  {
  }

  lemma NameCharacters(k: Key)
    ensures KeyName(k) != "" && forall c :: c in KeyName(k) ==> 'a' <= c <= 'z' || c == '-'
  {
  }

  lemma {:induction false} NameRead(word: char -> bool, n: string, rest: string)
    requires forall c :: c in n ==> InName(word, c)
    requires rest != "" && !InName(word, rest[0])
    ensures NameOf(word, n + rest) == n
  {
    if n == "" {
      assert n + rest == rest;
    } else {
      assert n[0] in n && (n + rest)[1..] == n[1..] + rest;
      assert forall c :: c in n[1..] ==> c in n;
      NameRead(word, n[1..], rest);
    }
  }

  lemma {:induction false} UnspacedBlank(spaces: string, rest: string)
    requires Blank(spaces) && rest != "" && !IsSpace(rest[0])
    ensures Unspaced(spaces + rest) == rest
  {
    if spaces == "" {
      assert spaces + rest == rest;
    } else {
      assert (spaces + rest)[1..] == spaces[1..] + rest;
      assert forall i :: 0 <= i < |spaces[1..]| ==> spaces[1..][i] == spaces[i + 1];
      UnspacedBlank(spaces[1..], rest);
    }
  }

  predicate Name(word: char -> bool, n: string) {
    n != "" && forall c :: c in n ==> InName(word, c)
  }

  /** What is read behind a bracket is the whole name in it, if it is compared with something. */
  lemma {:induction false} BracketReads(word: char -> bool, spaces: string, n: string, rest: string, k: Key)
    requires Letters(word) && Blank(spaces) && Name(word, n) && rest != "" && !InName(word, rest[0])
    ensures ReadsName(word, spaces + (n + rest), KeyName(k)) <==> n == KeyName(k) && Compares(Unspaced(rest))
  {
    NameCharacters(k);
    assert n[0] in n && InName(word, n[0]) && (n + rest)[0] == n[0];
    UnspacedBlank(spaces, n + rest);
    NameRead(word, n, rest);
    assert (n + rest)[|n|..] == rest;
  }

  lemma {:induction false} SoleBracket(word: char -> bool, before: string, spaces: string, n: string, rest: string)
    requires Letters(word) && Blank(spaces) && Name(word, n) && rest != "" && !InName(word, rest[0])
    requires '[' !in before && '#' !in before && '[' !in n + rest && '#' !in n + rest
    ensures Broken(word, before + ['['] + (spaces + (n + rest)))
         == if n in NAMES && Compares(Unspaced(rest)) then {NAMES[n]} else {}
  {
    var inside := spaces + (n + rest);
    var l := before + ['['] + inside;
    assert l[|before|] == '[' && l[|before| + 1..] == inside;
    forall i | 0 <= i < |l| ensures l[i] != '#' && (l[i] == '[' ==> i == |before|) {
      if i < |before| {
        assert l[i] in before;
      } else if i > |before| + |spaces| {
        assert l[i] == (n + rest)[i - |before| - 1 - |spaces|] && l[i] in n + rest;
      } else if i > |before| {
        assert l[i] == spaces[i - |before| - 1] && IsSpace(l[i]);
      }
    }
    forall k ensures Reads(word, l, k) <==> n in NAMES && k == NAMES[n] && Compares(Unspaced(rest)) {
      BracketReads(word, spaces, n, rest, k);
      KeyByName(k);
      if n in NAMES {
        NamedByKey(n);
      }
    }
  }

  predicate Operator(op: string) {
    op == "" || op == "~" || op == "|" || op == "^" || op == "$" || op == "*"
  }

  /**
   * A selector `…[name=…]` with no other bracket and no `#` is taken to rely on exactly the attribute of that name,
   * whichever of the comparisons it uses and however it is spaced; on none, if the name is not one of the eleven.
   */
  lemma {:induction false} SoleBracketIsBroken(word: char -> bool, before: string, spaces: string, n: string,
                                               gap: string, op: string, after: string)
    requires Letters(word) && Blank(spaces) && Name(word, n) && Blank(gap) && Operator(op)
    requires '[' !in before && '#' !in before && '[' !in n && '#' !in n && '[' !in after && '#' !in after
    ensures Broken(word, before + ['['] + (spaces + (n + (gap + (op + ['='] + after)))))
         == if n in NAMES then {NAMES[n]} else {}
  {
    var comparison := op + ['='] + after;
    var rest := gap + comparison;
    assert comparison[0] == (if op == "" then '=' else op[0]) && comparison[|op|] == '=';
    UnspacedBlank(gap, comparison);
    assert rest[0] == if gap == "" then comparison[0] else gap[0];
    assert forall c :: c in gap ==> IsSpace(c);
    assert forall c :: c in n + rest ==> c in n || c in gap || c in op || c == '=' || c in after;
    SoleBracket(word, before, spaces, n, rest);
  }

  /** `[name]` alone compares with nothing, and is taken to rely on nothing. */
  lemma {:induction false} BareBracketReadsNothing(word: char -> bool, before: string, n: string, after: string)
    requires Letters(word) && Name(word, n) && !word(']')
    requires '[' !in before && '#' !in before && '[' !in n && '#' !in n && '[' !in after && '#' !in after
    ensures Broken(word, before + ['['] + ("" + (n + ([']'] + after)))) == {}
  {
    var rest := [']'] + after;
    assert forall c :: c in n + rest ==> c in n || c == ']' || c in after;
    SoleBracket(word, before, "", n, rest);
  }

  /** A selector `…#id` without brackets is taken to rely on the id alone. */
  lemma {:induction false} HashIsBroken(word: char -> bool, before: string, id: string)
    requires id != "" && (word(id[0]) || id[0] == '-')
    requires '[' !in before && '[' !in id
    ensures Broken(word, before + ['#'] + id) == {ID}
  {
    var l := before + ['#'] + id;
    assert l[|before|] == '#' && l[|before| + 1] == id[0];
    forall i | 0 <= i < |l| ensures l[i] != '[' {
      assert i < |before| ==> l[i] in before;
      assert i > |before| ==> l[i] in id;
    }
    assert forall k :: Reads(word, l, k) <==> k == ID;
  }

  /** `_candidate`, where the locator resolves to exactly one visible element. */
  function Assess(lib: Library, stored: Option<Fingerprint>, ignore: set<Key>, resolve: string -> Option<Fingerprint>)
    : string -> Option<Candidate>
  {
    (l: string) =>
      if resolve(l).None? then None
      else if stored.None? then Some(Candidate(l, FALLBACK_WITHOUT_FINGERPRINT, Signals(0.0, 0.0, 0.0, 0.0)))
      else Some(Candidate(l, Score(lib, stored.value, resolve(l).value, ignore),
                          SignalsOf(lib, stored.value, resolve(l).value, ignore)))
  }

  ghost predicate Heals(q: Search, lib: Library, stored: Option<Fingerprint>, ignore: set<Key>,
                        resolve: string -> Option<Fingerprint>)
  {
    && q.fingerprint == stored.Some?
    && forall l :: q.assess(l) == Assess(lib, stored, ignore, resolve)(l)
  }

  /** Without a stored fingerprint every locator that resolves scores 0.8, and the others nothing. */
  lemma WithoutFingerprint(q: Search, lib: Library, ignore: set<Key>, resolve: string -> Option<Fingerprint>, l: string)
    requires Heals(q, lib, None, ignore, resolve)
    ensures q.assess(l) == if resolve(l).None? then None else Some(Candidate(l, 0.8, Signals(0.0, 0.0, 0.0, 0.0)))
  {
  }

  /** With a stored fingerprint and a threshold above 0.6, whatever is selected resolves to no look-alike. */
  lemma NoLookAlikeSelected(q: Search, r: Report, lib: Library, stored: Fingerprint, ignore: set<Key>,
                            resolve: string -> Option<Fingerprint>)
    requires Heals(q, lib, Some(stored), ignore, resolve) && Outcome(q, r) && r.selected.Some?
    requires q.threshold > 0.6
    ensures resolve(r.selected.value).Some?
    ensures !LookAlike(lib, stored, resolve(r.selected.value).value, ignore)
  {
    var c := SelectedIsEvaluated(q, r);
    if LookAlike(lib, stored, resolve(c.locator).value, ignore) {
      LookAlikeScoresLow(lib, stored, resolve(c.locator).value, ignore);
    }
  }

  /**
   * So it has the stored element's tag when both are known, its input kind, and one of its identifying features
   * if it had any.
   */
  lemma {:induction false} NeverHealsOntoLookAlike(q: Search, r: Report, lib: Library, stored: Fingerprint,
                                                   ignore: set<Key>, resolve: string -> Option<Fingerprint>)
    requires Heals(q, lib, Some(stored), ignore, resolve) && Outcome(q, r) && r.selected.Some?
    requires q.threshold > 0.6
    ensures resolve(r.selected.value).Some?
    ensures var live := resolve(r.selected.value).value;
            && (stored.tag != "" && live.tag != "" ==> stored.tag == live.tag)
            && InputKind(stored) == InputKind(live)
            && (Identifying(stored, ignore) != {} ==>
              exists f :: f in Identifying(stored, ignore) && Shares(lib, stored, live, f))
  {
    NoLookAlikeSelected(q, r, lib, stored, ignore, resolve);
  }

  // ---- The same in terms of the elements' fields ----

  /** The stored element had something to be recognised by, besides what the failed locator used. */
  predicate HadIdentity(stored: Fingerprint, ignore: set<Key>) {
    || (stored.id != "" && ID !in ignore)
    || (stored.name != "" && NAME !in ignore)
    || (stored.placeholder != "" && PLACEHOLDER !in ignore)
    || (stored.ariaLabel != "" && ARIA_LABEL !in ignore)
    || (HREF in stored.attributes && stored.attributes[HREF] != "" && HREF !in ignore)
    || stored.text != ""
  }

  /** Both have one such value in common, or texts that are alike to 80 percent. */
  predicate SameIdentity(lib: Library, stored: Fingerprint, live: Fingerprint, ignore: set<Key>) {
    || (stored.id != "" && ID !in ignore && live.id == stored.id)
    || (stored.name != "" && NAME !in ignore && live.name == stored.name)
    || (stored.placeholder != "" && PLACEHOLDER !in ignore && live.placeholder == stored.placeholder)
    || (stored.ariaLabel != "" && ARIA_LABEL !in ignore && live.ariaLabel == stored.ariaLabel)
    || (HREF in stored.attributes && stored.attributes[HREF] != "" && HREF !in ignore
        && HREF in live.attributes && live.attributes[HREF] == stored.attributes[HREF])
    || (stored.text != "" && live.text != "" && lib.ratio(stored.text, live.text) >= 80.0)
  }

  lemma PercentOf(x: real)
    ensures x / 100.0 >= 0.8 <==> x >= 80.0
  {
  }

  lemma HadByFields(stored: Fingerprint, ignore: set<Key>)
    ensures HadIdentity(stored, ignore) <==> Identifying(stored, ignore) != {}
  {
    var features := Identifying(stored, ignore);
    assert forall k :: Attribute(k) in features <==> k in IDENTITY && Counts(stored, ignore, k);
    assert Text in features <==> stored.text != "";
    if features != {} {
      var f :| f in features;
      assert f == Text || f == Attribute(f.key);
    }
    assert HadIdentity(stored, ignore) ==>
      || Attribute(ID) in features || Attribute(NAME) in features || Attribute(PLACEHOLDER) in features
      || Attribute(ARIA_LABEL) in features || Attribute(HREF) in features || Text in features;
  }

  lemma SharedByFields(lib: Library, stored: Fingerprint, live: Fingerprint, ignore: set<Key>, f: Feature)
    requires f in Identifying(stored, ignore) && Shares(lib, stored, live, f)
    ensures SameIdentity(lib, stored, live, ignore)
  {
    if f == Text {
      PercentOf(lib.ratio(stored.text, live.text));
    }
  }

  lemma FieldsAreShared(lib: Library, stored: Fingerprint, live: Fingerprint, ignore: set<Key>)
    requires SameIdentity(lib, stored, live, ignore)
    ensures exists f :: f in Identifying(stored, ignore) && Shares(lib, stored, live, f)
  {
    var features := Identifying(stored, ignore);
    PercentOf(lib.ratio(stored.text, live.text));
    assert forall k :: Attribute(k) in features <==> k in IDENTITY && Counts(stored, ignore, k);
    assert Text in features <==> stored.text != "";
    var f :=
      if stored.id != "" && ID !in ignore && live.id == stored.id then Attribute(ID)
      else if stored.name != "" && NAME !in ignore && live.name == stored.name then Attribute(NAME)
      else if stored.placeholder != "" && PLACEHOLDER !in ignore && live.placeholder == stored.placeholder
      then Attribute(PLACEHOLDER)
      else if stored.ariaLabel != "" && ARIA_LABEL !in ignore && live.ariaLabel == stored.ariaLabel
      then Attribute(ARIA_LABEL)
      else if stored.text != "" && live.text != "" && lib.ratio(stored.text, live.text) >= 80.0 then Text
      else Attribute(HREF);
    assert f in features && Shares(lib, stored, live, f);
  }

  lemma SharedIffSame(lib: Library, stored: Fingerprint, live: Fingerprint, ignore: set<Key>)
    ensures (exists f :: f in Identifying(stored, ignore) && Shares(lib, stored, live, f))
       <==> SameIdentity(lib, stored, live, ignore)
  {
    if f: Feature :| f in Identifying(stored, ignore) && Shares(lib, stored, live, f) {
      SharedByFields(lib, stored, live, ignore, f);
    }
    if SameIdentity(lib, stored, live, ignore) {
      FieldsAreShared(lib, stored, live, ignore);
    }
  }

  /** The answer of the identity check: none without identity, else whether there is something in common. */
  lemma {:induction false} IdentityByFields(lib: Library, stored: Fingerprint, live: Fingerprint, ignore: set<Key>)
    ensures IdentityMatches(lib, stored, live, ignore)
         == if HadIdentity(stored, ignore) then Some(SameIdentity(lib, stored, live, ignore)) else None
  {
    HadByFields(stored, ignore);
    SharedIffSame(lib, stored, live, ignore);
  }

  /**
   * With a stored fingerprint and a threshold above 0.6, the selected element has the stored tag when both are known,
   * and is the same kind of input if any; and if the stored element had an id, name, placeholder, label or href that the
   * failed locator did not use, or a text, the selected one has one of these values, too, or a text at least 80 percent
   * alike.
   */
  lemma {:induction false} SelectedHasIdentity(q: Search, r: Report, lib: Library, stored: Fingerprint, ignore: set<Key>,
                                               resolve: string -> Option<Fingerprint>)
    requires Heals(q, lib, Some(stored), ignore, resolve) && Outcome(q, r) && r.selected.Some? && q.threshold > 0.6
    ensures resolve(r.selected.value).Some?
    ensures var live := resolve(r.selected.value).value;
            && (stored.tag != "" && live.tag != "" ==> live.tag == stored.tag) && SameInput(stored, live)
            && (HadIdentity(stored, ignore) ==> SameIdentity(lib, stored, live, ignore))
  {
    NoLookAlikeSelected(q, r, lib, stored, ignore, resolve);
    IdentityByFields(lib, stored, resolve(r.selected.value).value, ignore);
    InputByFields(stored, resolve(r.selected.value).value);
  }

  /** The identifier is the same, and the failed locator did not use it. */
  predicate SameId(stored: Fingerprint, live: Fingerprint, ignore: set<Key>) {
    stored.id != "" && live.id == stored.id && ID !in ignore
  }

  /**
   * The score, to four places: none for another tag or kind of input; else four tenths of the attribute signal and two of
   * each other one, but at most 0.6 if the stored element had an identity that the live one lacks, and at least 0.85
   * if it has its identifier.  TextByRatio, PositionFades, StructureByPosition and AttributesByField say what the
   * signals are.
   */
  lemma {:induction false} ScoreByFields(lib: Library, stored: Fingerprint, live: Fingerprint, ignore: set<Key>)
    requires SoundLibrary(lib)
    ensures var s, score := SignalsOf(lib, stored, live, ignore), Score(lib, stored, live, ignore);
            var mean := (4.0 * s.attribute + 2.0 * s.text + 2.0 * s.position + 2.0 * s.structure) / 10.0;
            var judged := if HadIdentity(stored, ignore) && !SameIdentity(lib, stored, live, ignore) then Min(mean, 0.6)
                          else if SameId(stored, live, ignore) then Max(mean, 0.85)
                          else mean;
            if (stored.tag != "" && live.tag != "" && live.tag != stored.tag) || !SameInput(stored, live) then score == 0.0
            else judged - 0.00005 <= score <= judged + 0.00005
  {
    IdentityByFields(lib, stored, live, ignore);
    InputByFields(stored, live);
    ScoreIsUnit(lib, stored, live, ignore);
    var s := SignalsOf(lib, stored, live, ignore);
    var w := Weighted(s);
    assert w == (4.0 * s.attribute + 2.0 * s.text + 2.0 * s.position + 2.0 * s.structure) / 10.0;
    var judged := if HadIdentity(stored, ignore) && !SameIdentity(lib, stored, live, ignore) then Min(w, 0.6)
                  else if SameId(stored, live, ignore) then Max(w, 0.85)
                  else w;
    var _ := Round4Near(judged);
  }

  /** A lone fallback that reaches the threshold is selected, whatever it looks like. */
  lemma {:induction false} SingleFallbackSelected(q: Search, r: Report, l: string)
    requires q.fallbacks == [l] && l != q.primary && q.assess(l).Some? && q.assess(l).value.locator == l
    requires q.assess(l).value.score >= q.threshold && Outcome(q, r)
    ensures r.selected == Some(l)
  {
    var first := Evaluated(q, q.fallbacks, {q.primary});
    assert q.fallbacks[1..] == [] && first == [q.assess(l).value] + Evaluated(q, [], {q.primary} + {l});
    assert first[0] in first;
    var k := SelectedFallback(q, r);
  }

  /** The page on which one locator finds an element, and no other finds any. */
  function OnlyAt(l: string, live: Fingerprint): string -> Option<Fingerprint> {
    (x: string) => if x == l then Some(live) else None
  }

  /** A target that knows one fallback, `stored` and nothing else. */
  function OneFallback(lib: Library, word: char -> bool, threshold: real, primary: string, l: string,
                       stored: Fingerprint, live: Fingerprint): Search
  {
    Search(primary, [l], true, [], threshold, Assess(lib, Some(stored), Broken(word, primary), OnlyAt(l, live)))
  }

  lemma OneFallbackHeals(lib: Library, word: char -> bool, threshold: real, primary: string, l: string,
                         stored: Fingerprint, live: Fingerprint)
    ensures Heals(OneFallback(lib, word, threshold, primary, l, stored, live), lib, Some(stored), Broken(word, primary),
                  OnlyAt(l, live))
  {
  }

  /**
   * The bound of NeverHealsOntoLookAlike is tight: at every threshold up to 0.6, for a primary locator that reads no
   * attribute and any other fallback (`form input` and `input`, say), there are a stored element and a page on which
   * the primary finds nothing, and every outcome of the search selects a look-alike.
   */
  lemma LowThresholdHealsOntoLookAlike(lib: Library, word: char -> bool, threshold: real, primary: string, l: string)
    returns (q: Search, stored: Fingerprint, live: Fingerprint)
    requires SoundLibrary(lib) && threshold <= 0.6
    requires '[' !in primary && '#' !in primary && l != primary
    ensures q.threshold == threshold && q.primary == primary && q.fallbacks == [l]
    ensures Heals(q, lib, Some(stored), Broken(word, q.primary), OnlyAt(l, live)) && OnlyAt(l, live)(primary) == None
    ensures LookAlike(lib, stored, live, Broken(word, q.primary))
    ensures forall r :: Outcome(q, r) ==> r.selected.Some? && OnlyAt(l, live)(r.selected.value) == Some(live)
  {
    stored, live := KnownById("a"), KnownById("b");
    NothingRead(word, primary);
    LookAlikeReachesCap(lib);
    q := OneFallback(lib, word, threshold, primary, l, stored, live);
    OneFallbackHeals(lib, word, threshold, primary, l, stored, live);
    forall r | Outcome(q, r) ensures r.selected == Some(l) {
      SingleFallbackSelected(q, r, l);
    }
  }
}
