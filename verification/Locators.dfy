/** Locator generation and ranking (engine/locators.py), and the enrichment of targets (engine/runner.py). */
module Locators {
  import opened Sequences
  import opened Fingerprints

  // ---- Stability buckets: 0 most stable, 6 least ----

  predicate Contains(s: string, part: string) {
    part <= s || (s != "" && Contains(s[1..], part))
  }

  /** `_locator_priority` */
  function Priority(l: string): (bucket: nat)
    ensures bucket <= 6
  {
    if Contains(l, "data-testid") || Contains(l, "data-test-id") then 0
    else if "[role=" <= l && (Contains(l, "[aria-label=") || Contains(l, ":has-text(")) then 1
    else if "#" <= l then 2
    else if "[aria-label=" <= l then 3
    else if Contains(l, ":has-text(") || Contains(l, "[name=") || Contains(l, "[placeholder=") || Contains(l, "[type=") then 4
    else if "//" <= l || "(//" <= l then 6
    else 5
  }

  /** Larger is more stable, so that the most stable come first in descending order. */
  function Stability(l: string): real { -(Priority(l) as real) }

  /** `rank_locators` */
  function Ranked(locators: seq<string>): seq<string> { SortDesc(locators, Stability) }

  // ---- Generation ----

  /** A generated locator with the bucket it is meant for. */
  datatype Entry = Entry(bucket: nat, locator: string)

  function EntryOrder(e: Entry): real { -(e.bucket as real) }

  function Escaped(text: string): string {
    if text == "" then "" else (if text[0] == '"' then "\\\"" else [text[0]]) + Escaped(text[1..])
  }

  function Shown(text: string): string {
    Escaped(if |text| > 80 then text[..80] else text)
  }

  function Dotted(classes: seq<string>): string {
    if classes == [] then "" else (if classes[0] == "" then "" else "." + classes[0]) + Dotted(classes[1..])
  }

  function When(c: bool, bucket: nat, locator: string): seq<Entry> {
    if c then [Entry(bucket, locator)] else []
  }

  /** By test id, role, id and label. */
  function NamedEntries(fp: Fingerprint): seq<Entry> {
    var testId := if Attr(fp, DATA_TESTID) != "" then Attr(fp, DATA_TESTID) else Attr(fp, DATA_TEST_ID);
    When(testId != "", 0, "[data-testid=\"" + testId + "\"]")
    + (if fp.role != "" && fp.ariaLabel != ""
       then [Entry(1, "[role=\"" + fp.role + "\"][aria-label=\"" + fp.ariaLabel + "\"]")]
       else When(fp.role != "" && fp.text != "", 1, "[role=\"" + fp.role + "\"]:has-text(\"" + Shown(fp.text) + "\")"))
    + When(fp.id != "", 2, "#" + fp.id)
    + When(fp.ariaLabel != "", 3, "[aria-label=\"" + fp.ariaLabel + "\"]")
  }

  /** By name, placeholder, text and type. */
  function MarkedEntries(fp: Fingerprint, tag: string): seq<Entry> {
    When(fp.name != "", 4, tag + "[name=\"" + fp.name + "\"]")
    + When(fp.placeholder != "", 4, "[placeholder=\"" + fp.placeholder + "\"]")
    + When(fp.text != "", 4, tag + ":has-text(\"" + Shown(fp.text) + "\")")
    + When(Attr(fp, TYPE) != "", 4, tag + "[type='" + Attr(fp, TYPE) + "']")
  }

  /** By classes, and by a path. */
  function PlacedEntries(fp: Fingerprint, tag: string): seq<Entry> {
    When(fp.classes != [] && Dotted(fp.classes) != "", 5, tag + Dotted(fp.classes))
    + [Entry(6, if fp.id != "" then "//" + tag + "[@id=\"" + fp.id + "\"]"
                else if fp.text != "" then "//" + tag + "[contains(normalize-space(),\"" + Shown(fp.text) + "\")]"
                else "//" + tag)]
  }

  function TagOf(fp: Fingerprint): string { if fp.tag == "" then "*" else fp.tag }

  /** The entries in the order the source appends them. */
  function Entries(fp: Fingerprint): seq<Entry> {
    NamedEntries(fp) + MarkedEntries(fp, TagOf(fp)) + PlacedEntries(fp, TagOf(fp))
  }

  /** The locators of the entries, each at its first place only; `seen` are not wanted again. */
  function FirstPlaces(entries: seq<Entry>, seen: set<string>): seq<string> {
    if entries == [] then []
    else
      var l := entries[0].locator;
      (if l != "" && l !in seen then [l] else []) + FirstPlaces(entries[1..], seen + {l})
  }

  /** `generate_locators`: best bucket first, no locator twice. */
  function Generated(fp: Fingerprint): seq<string> {
    FirstPlaces(SortDesc(Entries(fp), EntryOrder), {})
  }

  function LocatorsOf(entries: seq<Entry>): set<string> { set e | e in entries :: e.locator }

  lemma {:induction false} FirstPlacesAppend(a: seq<Entry>, e: Entry, seen: set<string>)
    ensures FirstPlaces(a + [e], seen)
         == FirstPlaces(a, seen) + (if e.locator != "" && e.locator !in seen + LocatorsOf(a) then [e.locator] else [])
  {
    if a == [] {
      assert a + [e] == [e] && [e][1..] == [];
    } else {
      assert (a + [e])[1..] == a[1..] + [e] && a == [a[0]] + a[1..];
      FirstPlacesAppend(a[1..], e, seen + {a[0].locator});
      assert seen + {a[0].locator} + LocatorsOf(a[1..]) == seen + LocatorsOf(a);
    }
  }

  method GenerateLocators(fp: Fingerprint) returns (result: seq<string>)
    ensures result == Generated(fp)
  {
    result := Deduplicate(SortDesc(Entries(fp), EntryOrder));
  }

  /** The loop over the sorted entries with its `seen` set. */
  method Deduplicate(candidates: seq<Entry>) returns (result: seq<string>)
    ensures result == FirstPlaces(candidates, {})
  {
    var seen: set<string> := {};
    result := [];
    for i := 0 to |candidates|
      invariant result == FirstPlaces(candidates[..i], {})
      invariant seen == LocatorsOf(candidates[..i]) - {""}
    {
      var l := candidates[i].locator;
      assert candidates[..i + 1] == candidates[..i] + [candidates[i]];
      FirstPlacesAppend(candidates[..i], candidates[i], {});
      assert LocatorsOf(candidates[..i + 1]) == LocatorsOf(candidates[..i]) + {l};
      if l != "" && l !in seen {
        seen := seen + {l};
        result := result + [l];
      }
    }
    assert candidates[..|candidates|] == candidates;
  }

  lemma {:induction false} FirstPlacesFacts(entries: seq<Entry>, seen: set<string>)
    ensures forall l :: l in FirstPlaces(entries, seen) <==> l != "" && l !in seen && l in LocatorsOf(entries)
    ensures Distinct(FirstPlaces(entries, seen))
  {
    if entries != [] {
      var l := entries[0].locator;
      FirstPlacesFacts(entries[1..], seen + {l});
      assert entries == [entries[0]] + entries[1..];
      assert LocatorsOf(entries) == {l} + LocatorsOf(entries[1..]);
    }
  }

  /** Every generated locator is listed once, none is empty, and there is always one. */
  lemma GeneratedFacts(fp: Fingerprint)
    ensures Distinct(Generated(fp))
    ensures forall l :: l in Generated(fp) <==> l != "" && l in LocatorsOf(Entries(fp))
    ensures Generated(fp) != []
  {
    var entries, sorted := Entries(fp), SortDesc(Entries(fp), EntryOrder);
    FirstPlacesFacts(sorted, {});
    forall e ensures e in sorted <==> e in entries {
      SortMember(entries, EntryOrder, e);
    }
    assert LocatorsOf(sorted) == LocatorsOf(entries);
    var last := entries[|entries| - 1];
    assert last in entries && last.locator[0] == '/';
    assert last.locator in LocatorsOf(entries);
  }

  // ---- Enrichment ----

  predicate Unknown(primary: string, fallbacks: seq<string>, l: string) {
    l != primary && l !in fallbacks
  }

  /** The generated locators that a target does not have yet. */
  function News(primary: string, fallbacks: seq<string>, generated: seq<string>): seq<string> {
    Filter(generated, (l: string) => Unknown(primary, fallbacks, l))
  }

  function Enriched(primary: string, fallbacks: seq<string>, generated: seq<string>): seq<string> {
    Ranked(fallbacks + News(primary, fallbacks, generated))
  }

  /** What a target knows. */
  datatype TargetState = TargetState(primary: string, fallbacks: seq<string>, fingerprint: Option<Fingerprint>)

  function Learned(t: TargetState, f: Fingerprint): TargetState {
    TargetState(t.primary, Enriched(t.primary, t.fallbacks, Generated(f)), Some(f))
  }

  class Target {
    const primary: string
    var fallbacks: seq<string>
    var fingerprint: Option<Fingerprint>

    constructor (primary: string, fallbacks: seq<string>)
      ensures this.primary == primary && this.fallbacks == fallbacks && fingerprint == None
    {
      this.primary, this.fallbacks, fingerprint := primary, fallbacks, None;
    }

    function Now(): TargetState
      reads this
    {
      TargetState(primary, fallbacks, fingerprint)
    }

    /** `_enrich_target`, with the fingerprint captured before or after the action, if any. */
    method Enrich(captured: Option<Fingerprint>)
      modifies this
      ensures Now() == if captured.Some? then Learned(old(Now()), captured.value) else old(Now())
    {
      if captured.None? {
        return;
      }
      var generated := GenerateLocators(captured.value);
      fallbacks := Ranked(fallbacks + News(primary, fallbacks, generated));
      fingerprint := captured;
    }
  }

  lemma {:induction false} FilterDistinct(s: seq<string>, p: string -> bool)
    requires Distinct(s)
    ensures Distinct(Filter(s, p))
  {
    if s != [] {
      FilterDistinct(s[1..], p);
      FilterMember(s[1..], p, s[0]);
      assert s[0] !in s[1..];
    }
  }

  lemma NewsFacts(primary: string, fallbacks: seq<string>, generated: seq<string>)
    requires Distinct(generated)
    ensures Distinct(News(primary, fallbacks, generated))
    ensures forall l :: l in News(primary, fallbacks, generated) <==> l in generated && l != primary && l !in fallbacks
  {
    var p := (l: string) => Unknown(primary, fallbacks, l);
    FilterDistinct(generated, p);
    forall l ensures l in Filter(generated, p) <==> l in generated && p(l) {
      FilterMember(generated, p, l);
    }
  }

  /**
   * Enrichment loses no fallback and adds each unknown generated locator exactly once, never the primary
   * nor one already there; the list comes out sorted, with the old order kept inside each bucket.
   */
  lemma EnrichedIsWellFormed(primary: string, fallbacks: seq<string>, generated: seq<string>)
    requires Distinct(generated)
    ensures var e, added := Enriched(primary, fallbacks, generated), News(primary, fallbacks, generated);
            && multiset(e) == multiset(fallbacks) + multiset(added) && Distinct(added)
            && (forall l :: l in added <==> l in generated && l != primary && l !in fallbacks)
            && Descending(e, Stability)
            && forall v :: Filter(e, KeyIs(Stability, v))
                        == Filter(fallbacks, KeyIs(Stability, v)) + Filter(added, KeyIs(Stability, v))
  {
    var added := News(primary, fallbacks, generated);
    NewsFacts(primary, fallbacks, generated);
    SortMultiset(fallbacks + added, Stability);
    SortSorted(fallbacks + added, Stability);
    forall v ensures Filter(Enriched(primary, fallbacks, generated), KeyIs(Stability, v))
                  == Filter(fallbacks, KeyIs(Stability, v)) + Filter(added, KeyIs(Stability, v))
    {
      SortStable(fallbacks + added, Stability, v);
      FilterAppend(fallbacks, added, KeyIs(Stability, v));
    }
  }

  lemma JoinDistinct(a: seq<string>, b: seq<string>)
    requires Distinct(a) && Distinct(b) && forall x :: x in b ==> x !in a
    ensures Distinct(a + b)
  {
    forall i, j | 0 <= i < j < |a + b| ensures (a + b)[i] != (a + b)[j] {
      if i < |a| <= j {
        assert b[j - |a|] in b;
      }
    }
  }

  lemma EnrichedMembers(primary: string, fallbacks: seq<string>, generated: seq<string>)
    requires Distinct(generated)
    ensures forall l :: l in Enriched(primary, fallbacks, generated) <==> l in fallbacks || (l in generated && l != primary)
    ensures Distinct(fallbacks) ==> Distinct(Enriched(primary, fallbacks, generated))
    ensures Descending(Enriched(primary, fallbacks, generated), Stability)
  {
    var added := News(primary, fallbacks, generated);
    NewsFacts(primary, fallbacks, generated);
    forall l ensures l in Enriched(primary, fallbacks, generated) <==> l in fallbacks || l in added {
      SortMember(fallbacks + added, Stability, l);
    }
    if Distinct(fallbacks) {
      JoinDistinct(fallbacks, added);
      SortDistinct(fallbacks + added, Stability);
    }
    SortSorted(fallbacks + added, Stability);
  }

  /** A sorted list that knows all that is generated is left as it is. */
  lemma NothingNew(primary: string, fallbacks: seq<string>, generated: seq<string>)
    requires Descending(fallbacks, Stability)
    requires forall l :: l in generated ==> l == primary || l in fallbacks
    ensures Enriched(primary, fallbacks, generated) == fallbacks
  {
    var added := News(primary, fallbacks, generated);
    if added != [] {
      FilterMember(generated, (l: string) => Unknown(primary, fallbacks, l), added[0]);
    }
    assert fallbacks + added == fallbacks;
    SortOfSorted(fallbacks, Stability);
  }

  // ---- Whole runs ----

  /** The fallbacks after a run of enrichments. */
  function EnrichAll(primary: string, fallbacks: seq<string>, captures: seq<Fingerprint>): seq<string> {
    if captures == [] then fallbacks
    else
      Enriched(primary, EnrichAll(primary, fallbacks, captures[..|captures| - 1]),
               Generated(captures[|captures| - 1]))
  }

  ghost predicate GeneratedBySome(captures: seq<Fingerprint>, l: string) {
    exists f :: f in captures && l in Generated(f)
  }

  lemma GeneratedByOneMore(captures: seq<Fingerprint>, l: string)
    requires captures != []
    ensures GeneratedBySome(captures, l) <==>
            GeneratedBySome(captures[..|captures| - 1], l) || l in Generated(captures[|captures| - 1])
  {
    var init, last := captures[..|captures| - 1], captures[|captures| - 1];
    assert captures == init + [last];
    if GeneratedBySome(captures, l) {
      var f :| f in captures && l in Generated(f);
      assert f in init || f == last;
    }
  }

  /** Enrichment as far as a run depends on it. */
  ghost predicate Grown(primary: string, before: seq<string>, after: seq<string>, generated: seq<string>) {
    && multiset(before) <= multiset(after) && (Distinct(before) ==> Distinct(after)) && Descending(after, Stability)
    && forall l :: l in after <==> l in before || (l in generated && l != primary)
  }

  lemma EnrichedGrows(primary: string, fallbacks: seq<string>, generated: seq<string>)
    requires Distinct(generated)
    ensures Grown(primary, fallbacks, Enriched(primary, fallbacks, generated), generated)
  {
    EnrichedMembers(primary, fallbacks, generated);
    EnrichedIsWellFormed(primary, fallbacks, generated);
  }

  /**
   * Over any run nothing is lost and nothing is doubled; the final list holds exactly the first fallbacks and
   * what the captured fingerprints generate, without the primary (unless it was a fallback to begin with).
   */
  lemma {:induction false} EnrichAllFacts(primary: string, fallbacks: seq<string>, captures: seq<Fingerprint>)
    ensures var e := EnrichAll(primary, fallbacks, captures);
            && multiset(fallbacks) <= multiset(e)
            && (Distinct(fallbacks) ==> Distinct(e))
            && (captures != [] ==> Descending(e, Stability))
    ensures forall l :: l in EnrichAll(primary, fallbacks, captures) <==>
      l in fallbacks || (l != primary && GeneratedBySome(captures, l))
  {
    if captures != [] {
      var init, last := captures[..|captures| - 1], captures[|captures| - 1];
      var before := EnrichAll(primary, fallbacks, init);
      EnrichAllFacts(primary, fallbacks, init);
      GeneratedFacts(last);
      EnrichedGrows(primary, before, Generated(last));
      forall l ensures l in EnrichAll(primary, fallbacks, captures) <==>
          l in fallbacks || (l != primary && GeneratedBySome(captures, l))
      {
        GeneratedByOneMore(captures, l);
      }
    }
  }

  /** Enriching again with any fingerprint seen before changes nothing. */
  lemma {:induction false} EnrichedAgain(primary: string, fallbacks: seq<string>, captures: seq<Fingerprint>,
                                         f: Fingerprint)
    requires f in captures
    ensures var e := EnrichAll(primary, fallbacks, captures);
            Enriched(primary, e, Generated(f)) == e
  {
    EnrichAllFacts(primary, fallbacks, captures);
    GeneratedFacts(f);
    assert forall l :: l in Generated(f) ==> GeneratedBySome(captures, l);
    NothingNew(primary, EnrichAll(primary, fallbacks, captures), Generated(f));
  }

  // ---- Generated locators are ranked where they were meant to be ----

  lemma {:induction false} ContainsPart(before: string, part: string, after: string)
    ensures Contains(before + part + after, part)
  {
    if before == "" {
      assert before + part + after == part + after;
    } else {
      ContainsPart(before[1..], part, after);
      assert (before + part + after)[1..] == before[1..] + part + after;
    }
  }

  /** These two characters, one after the other. */
  ghost predicate Adjacent(l: string, c: char, d: char) {
    exists i :: 0 <= i < |l| - 1 && l[i] == c && l[i + 1] == d
  }

  lemma {:induction false} AdjacentInPart(l: string, part: string, c: char, d: char)
    requires Contains(l, part) && |part| > 1 && part[0] == c && part[1] == d
    ensures Adjacent(l, c, d)
  {
    if part <= l {
      assert l[0] == c && l[1] == d;
    } else {
      AdjacentInPart(l[1..], part, c, d);
      var i :| 0 <= i < |l[1..]| - 1 && l[1..][i] == c && l[1..][i + 1] == d;
      assert l[i + 1] == c && l[i + 2] == d;
    }
  }

  lemma {:induction false} ContainsTail(l: string, part: string, n: nat)
    requires Contains(l, part) && n <= |part|
    ensures Contains(l, part[n..])
  {
    if part <= l {
      assert l == l[..n] + part[n..] + l[|part|..];
      ContainsPart(l[..n], part[n..], l[|part|..]);
    } else {
      ContainsTail(l[1..], part, n);
    }
  }

  /** Text cut from a value that has neither bracket nor colon, hyphen, slash or hash. */
  predicate Plain(v: string) {
    '[' !in v && ':' !in v && '-' !in v && '/' !in v && '#' !in v
  }

  lemma NotAdjacentJoined(a: string, b: string, c: char, d: char)
    requires !Adjacent(a, c, d) && !Adjacent(b, c, d) && ((a != "" ==> a[|a| - 1] != c) || (b != "" ==> b[0] != d))
    ensures !Adjacent(a + b, c, d)
  {
    var l := a + b;
    forall i | 0 <= i < |l| - 1 ensures !(l[i] == c && l[i + 1] == d) {
      if i + 1 < |a| {
        assert l[i] == a[i] && l[i + 1] == a[i + 1];
      } else if i >= |a| {
        assert l[i] == b[i - |a|] && l[i + 1] == b[i - |a| + 1];
      }
    }
  }

  /** Nor around two plain values between pieces that do not have them and do not end with the first. */
  lemma NotAdjacentAround(a: string, v: string, b: string, w: string, e: string, c: char, d: char)
    requires c !in v && c !in w && !Adjacent(a, c, d) && !Adjacent(b, c, d) && !Adjacent(e, c, d)
    requires (a != "" ==> a[|a| - 1] != c) && (b != "" ==> b[|b| - 1] != c)
    ensures !Adjacent(a + v + b + w + e, c, d)
  {
    NotAdjacentJoined(a, v, c, d);
    NotAdjacentJoined(a + v, b, c, d);
    NotAdjacentJoined(a + v + b, w, c, d);
    NotAdjacentJoined(a + v + b + w, e, c, d);
  }

  /** The same for pieces that do not begin with the second. */
  lemma NotAdjacentBetween(a: string, v: string, b: string, w: string, e: string, c: char, d: char)
    requires d !in v && d !in w && !Adjacent(a, c, d) && !Adjacent(b, c, d) && !Adjacent(e, c, d)
    requires (b != "" ==> b[0] != d) && (e != "" ==> e[0] != d)
    ensures !Adjacent(a + v + b + w + e, c, d)
  {
    NotAdjacentJoined(a, v, c, d);
    NotAdjacentJoined(a + v, b, c, d);
    NotAdjacentJoined(a + v + b, w, c, d);
    NotAdjacentJoined(a + v + b + w, e, c, d);
  }

  lemma NoTestId(l: string)
    requires !Adjacent(l, '-', 't') || !Adjacent(l, 'a', '-')
    ensures !Contains(l, "data-testid") && !Contains(l, "data-test-id")
  {
    var one, two := "data-testid", "data-test-id";
    if Contains(l, one) {
      ContainsTail(l, one, 3);
      ContainsTail(l, one, 4);
      AdjacentInPart(l, one[3..], 'a', '-');
      AdjacentInPart(l, one[4..], '-', 't');
    }
    if Contains(l, two) {
      ContainsTail(l, two, 3);
      ContainsTail(l, two, 4);
      AdjacentInPart(l, two[3..], 'a', '-');
      AdjacentInPart(l, two[4..], '-', 't');
    }
  }

  lemma NoAttribute(l: string)
    requires !Adjacent(l, '[', 'n') && !Adjacent(l, '[', 'p') && !Adjacent(l, '[', 't') && !Adjacent(l, ':', 'h')
    ensures !Contains(l, ":has-text(") && !Contains(l, "[name=") && !Contains(l, "[placeholder=") && !Contains(l, "[type=")
  {
    var text, name, placeholder, kind := ":has-text(", "[name=", "[placeholder=", "[type=";
    if Contains(l, text) {
      AdjacentInPart(l, text, ':', 'h');
    }
    if Contains(l, name) {
      AdjacentInPart(l, name, '[', 'n');
    }
    if Contains(l, placeholder) {
      AdjacentInPart(l, placeholder, '[', 'p');
    }
    if Contains(l, kind) {
      AdjacentInPart(l, kind, '[', 't');
    }
  }

  lemma TestIdRank(v: string)
    ensures Priority("[data-testid=\"" + v + "\"]") == 0
  {
    ContainsPart("[", "data-testid", "=\"" + v + "\"]");
    assert "[data-testid=\"" + v + "\"]" == "[" + "data-testid" + ("=\"" + v + "\"]");
  }

  /** A role and a name behind it, in either form. */
  lemma RoleRank(open: string, r: string, mark: string, v: string, close: string)
    requires "[role=" <= open && (mark == "[aria-label=" || mark == ":has-text(")
    ensures var l := open + r + ("\"]" + mark + "\"") + v + close;
            !Contains(l, "data-testid") && !Contains(l, "data-test-id") ==> Priority(l) == 1
  {
    var before, after := open + r + "\"]", "\"" + v + close;
    var l := open + r + ("\"]" + mark + "\"") + v + close;
    ContainsPart(before, mark, after);
    assert l == before + mark + after;
    assert "[role=" <= l;
  }

  lemma RoleLabelRank(r: string, v: string)
    requires Plain(r) && Plain(v)
    ensures Priority("[role=\"" + r + "\"][aria-label=\"" + v + "\"]") == 1
  {
    var open, between, close := "[role=\"", "\"][aria-label=\"", "\"]";
    var l, mark := open + r + between + v + close, "[aria-label=";
    NotAdjacentAround(open, r, between, v, close, '-', 't');
    NoTestId(l);
    assert between == "\"]" + mark + "\"";
    RoleRank(open, r, mark, v, close);
  }

  lemma RoleTextRank(r: string, v: string)
    requires Plain(r) && Plain(v)
    ensures Priority("[role=\"" + r + "\"]:has-text(\"" + v + "\")") == 1
  {
    var open, between, close := "[role=\"", "\"]:has-text(\"", "\")";
    var l, mark := open + r + between + v + close, ":has-text(";
    NotAdjacentBetween(open, r, between, v, close, 'a', '-');
    NoTestId(l);
    assert between == "\"]" + mark + "\"";
    RoleRank(open, r, mark, v, close);
  }

  lemma IdRank(v: string)
    requires Plain(v)
    ensures Priority("#" + v) == 2
  {
    var l := "#" + v;
    NoTestId(l);
    assert l[0] == '#' && "#" <= l;
  }

  lemma LabelRank(v: string)
    requires Plain(v)
    ensures Priority("[aria-label=\"" + v + "\"]") == 3
  {
    var open, close := "[aria-label=\"", "\"]";
    var l := open + v + close;
    NotAdjacentAround(open, v, close, "", "", '-', 't');
    assert open + v + close + "" + "" == l;
    NoTestId(l);
    assert l[0] == '[' && l[1] == 'a' && "[aria-label=" <= open <= l;
    assert "[role="[1] == 'r';
  }

  /** What marks a selector by name, placeholder, text or type. */
  predicate Marks(mark: string) {
    mark == ":has-text(" || mark == "[name=" || mark == "[placeholder=" || mark == "[type="
  }

  lemma MarkIsNoTestId(mark: string)
    requires Marks(mark)
    ensures !Adjacent(mark, 'a', '-') && mark != "" && mark[0] != '-' && mark[0] != '#' && mark[|mark| - 1] != 'a'
  {
  }

  lemma MarkedRank(l: string, mark: string, before: string, after: string)
    requires Marks(mark) && l == before + mark + after && !Adjacent(l, 'a', '-')
    requires |l| > 1 && l[0] != '#' && (l[0] == '[' ==> l[1] == 'p')
    ensures Priority(l) == 4
  {
    NoTestId(l);
    ContainsPart(before, mark, after);
    FourWithMark(l, mark);
  }

  lemma FourWithMark(l: string, mark: string)
    requires Marks(mark) && Contains(l, mark) && !Contains(l, "data-testid") && !Contains(l, "data-test-id")
    requires |l| > 1 && l[0] != '#' && (l[0] == '[' ==> l[1] == 'p')
    ensures Priority(l) == 4
  {
    var role, aria := "[role=", "[aria-label=";
    assert role[0] == aria[0] == '[' && role[1] == 'r' && aria[1] == 'a';
    assert !(role <= l) && !(aria <= l);
  }

  /** A marked attribute behind a tag. */
  lemma AttributeRank(tag: string, mark: string, quote: string, v: string, close: string)
    requires Plain(tag) && Plain(v) && '-' !in close && '-' !in quote && tag != "" && Marks(mark)
    ensures Priority(tag + mark + (quote + v + close)) == 4
  {
    var l := tag + mark + (quote + v + close);
    MarkIsNoTestId(mark);
    NotAdjacentJoined(tag, mark, 'a', '-');
    NotAdjacentJoined(tag + mark, quote + v + close, 'a', '-');
    assert l[0] == tag[0] && tag[0] in tag;
    MarkedRank(l, mark, tag, quote + v + close);
  }

  lemma PlaceholderRank(v: string)
    requires Plain(v)
    ensures Priority("[placeholder=\"" + v + "\"]") == 4
  {
    var mark, rest := "[placeholder=", "\"" + v + "\"]";
    var l := mark + rest;
    MarkIsNoTestId(mark);
    NotAdjacentJoined(mark, rest, 'a', '-');
    assert l[0] == '[' && l[1] == 'p';
    assert "" + mark + rest == l;
    MarkedRank(l, mark, "", rest);
    assert l == "[placeholder=\"" + v + "\"]";
  }

  lemma ClassRank(l: string)
    requires Plain(l)
    ensures Priority(l) == 5
  {
    NoTestId(l);
    NoAttribute(l);
    assert |l| > 0 ==> l[0] in l;
    assert |l| > 1 ==> l[1] in l;
  }

  /** A path, grouped or not: the brackets in it are followed by something else than an attribute's name. */
  lemma PathRank(l: string)
    requires ("//" <= l || "(//" <= l) && !Adjacent(l, '-', 't')
    requires !Adjacent(l, '[', 'n') && !Adjacent(l, '[', 'p') && !Adjacent(l, '[', 't') && !Adjacent(l, ':', 'h')
    ensures Priority(l) == 6
  {
    NoTestId(l);
    NoAttribute(l);
    assert l[0] == '/' || l[0] == '(';
  }

  lemma PlainPathRank(tag: string)
    requires Plain(tag)
    ensures Priority("//" + tag) == 6
  {
    PathRank("//" + tag);
  }

  lemma PathToRank(tag: string, test: string, v: string, close: string)
    requires Plain(tag) && Plain(v)
    requires (test == "[@id=\"" && close == "\"]") || (test == "[contains(normalize-space(),\"" && close == "\")]")
    ensures Priority("//" + tag + test + v + close) == 6
  {
    var l := "//" + tag + test + v + close;
    NotAdjacentAround("//", tag, test, v, close, '-', 't');
    NotAdjacentAround("//", tag, test, v, close, '[', 'n');
    NotAdjacentAround("//", tag, test, v, close, '[', 'p');
    NotAdjacentAround("//", tag, test, v, close, '[', 't');
    NotAdjacentAround("//", tag, test, v, close, ':', 'h');
    assert l[0] == '/' && l[1] == '/';
    PathRank(l);
  }

  // ---- The whole list ----

  /** The texts that a fingerprint's locators are made of. */
  predicate PlainFingerprint(fp: Fingerprint) {
    && Plain(fp.tag) && Plain(fp.id) && Plain(fp.text) && Plain(fp.role) && Plain(fp.ariaLabel)
    && Plain(fp.name) && Plain(fp.placeholder) && Plain(Attr(fp, TYPE)) && forall c :: c in fp.classes ==> Plain(c)
  }

  lemma {:induction false} PlainEscaped(v: string)
    requires Plain(v)
    ensures Plain(Escaped(v))
  {
    if v != "" {
      assert v == [v[0]] + v[1..] && v[0] in v;
      assert forall c :: c in v[1..] ==> c in v;
      PlainEscaped(v[1..]);
    }
  }

  lemma PlainShown(v: string)
    requires Plain(v)
    ensures Plain(Shown(v))
  {
    var cut := if |v| > 80 then v[..80] else v;
    assert forall c :: c in cut ==> c in v;
    PlainEscaped(cut);
  }

  lemma {:induction false} PlainDotted(classes: seq<string>)
    requires forall c :: c in classes ==> Plain(c)
    ensures Plain(Dotted(classes))
  {
    if classes != [] {
      assert classes[0] in classes;
      PlainDotted(classes[1..]);
    }
  }

  predicate RankedAsMeant(e: Entry) { Priority(e.locator) == e.bucket }

  lemma TagRanks(fp: Fingerprint, tag: string, text: string)
    requires PlainFingerprint(fp) && Plain(tag) && tag != "" && Plain(text)
    ensures Priority(tag + "[name=\"" + fp.name + "\"]") == 4
    ensures Priority(tag + ":has-text(\"" + text + "\")") == 4
    ensures Priority(tag + "[type='" + Attr(fp, TYPE) + "']") == 4
    ensures Priority(tag + Dotted(fp.classes)) == 5
  {
    var name, shown, kind := "[name=", ":has-text(", "[type=";
    AttributeRank(tag, name, "\"", fp.name, "\"]");
    AttributeRank(tag, shown, "\"", text, "\")");
    AttributeRank(tag, kind, "'", Attr(fp, TYPE), "']");
    assert tag + "[name=\"" + fp.name + "\"]" == tag + name + ("\"" + fp.name + "\"]");
    assert tag + ":has-text(\"" + text + "\")" == tag + shown + ("\"" + text + "\")");
    assert tag + "[type='" + Attr(fp, TYPE) + "']" == tag + kind + ("'" + Attr(fp, TYPE) + "']");
    PlainDotted(fp.classes);
    ClassRank(tag + Dotted(fp.classes));
  }

  lemma PathRanks(fp: Fingerprint, tag: string, text: string)
    requires PlainFingerprint(fp) && Plain(tag) && Plain(text)
    ensures Priority("//" + tag + "[@id=\"" + fp.id + "\"]") == 6
    ensures Priority("//" + tag + "[contains(normalize-space(),\"" + text + "\")]") == 6
    ensures Priority("//" + tag) == 6
  {
    PathToRank(tag, "[@id=\"", fp.id, "\"]");
    PathToRank(tag, "[contains(normalize-space(),\"", text, "\")]");
    PlainPathRank(tag);
  }

  /** What holds of each form of locator holds of all entries. */
  lemma OfNamedEntries(fp: Fingerprint, testId: string, text: string, p: Entry -> bool)
    requires testId == if Attr(fp, DATA_TESTID) != "" then Attr(fp, DATA_TESTID) else Attr(fp, DATA_TEST_ID)
    requires text == Shown(fp.text)
    requires p(Entry(0, "[data-testid=\"" + testId + "\"]"))
    requires p(Entry(1, "[role=\"" + fp.role + "\"][aria-label=\"" + fp.ariaLabel + "\"]"))
    requires p(Entry(1, "[role=\"" + fp.role + "\"]:has-text(\"" + text + "\")"))
    requires p(Entry(2, "#" + fp.id)) && p(Entry(3, "[aria-label=\"" + fp.ariaLabel + "\"]"))
    ensures forall e :: e in NamedEntries(fp) ==> p(e)
  {
  }

  lemma OfMarkedEntries(fp: Fingerprint, tag: string, text: string, p: Entry -> bool)
    requires text == Shown(fp.text)
    requires p(Entry(4, tag + "[name=\"" + fp.name + "\"]"))
    requires p(Entry(4, "[placeholder=\"" + fp.placeholder + "\"]"))
    requires p(Entry(4, tag + ":has-text(\"" + text + "\")"))
    requires p(Entry(4, tag + "[type='" + Attr(fp, TYPE) + "']"))
    ensures forall e :: e in MarkedEntries(fp, tag) ==> p(e)
  {
  }

  lemma OfPlacedEntries(fp: Fingerprint, tag: string, text: string, p: Entry -> bool)
    requires text == Shown(fp.text)
    requires p(Entry(5, tag + Dotted(fp.classes)))
    requires p(Entry(6, "//" + tag + "[@id=\"" + fp.id + "\"]")) && p(Entry(6, "//" + tag))
    requires p(Entry(6, "//" + tag + "[contains(normalize-space(),\"" + text + "\")]"))
    ensures forall e :: e in PlacedEntries(fp, tag) ==> p(e)
  {
  }

  lemma NamedRanked(fp: Fingerprint)
    requires PlainFingerprint(fp)
    ensures forall e :: e in NamedEntries(fp) ==> RankedAsMeant(e)
  {
    var testId := if Attr(fp, DATA_TESTID) != "" then Attr(fp, DATA_TESTID) else Attr(fp, DATA_TEST_ID);
    var text := Shown(fp.text);
    PlainShown(fp.text);
    TestIdRank(testId);
    RoleLabelRank(fp.role, fp.ariaLabel);
    RoleTextRank(fp.role, text);
    IdRank(fp.id);
    LabelRank(fp.ariaLabel);
    OfNamedEntries(fp, testId, text, RankedAsMeant);
  }

  /** On plain texts every generated locator is ranked in the bucket it was generated for. */
  lemma {:induction false} EntriesRanked(fp: Fingerprint)
    requires PlainFingerprint(fp)
    ensures forall e :: e in Entries(fp) ==> RankedAsMeant(e)
  {
    var tag, text := TagOf(fp), Shown(fp.text);
    NamedRanked(fp);
    PlainShown(fp.text);
    PlaceholderRank(fp.placeholder);
    TagRanks(fp, tag, text);
    OfMarkedEntries(fp, tag, text, RankedAsMeant);
    PathRanks(fp, tag, text);
    OfPlacedEntries(fp, tag, text, RankedAsMeant);
  }

  lemma {:induction false} FirstPlacesDescend(entries: seq<Entry>, seen: set<string>)
    requires Descending(entries, EntryOrder) && forall e :: e in entries ==> RankedAsMeant(e)
    ensures Descending(FirstPlaces(entries, seen), Stability)
    ensures forall l :: l in FirstPlaces(entries, seen) ==> Stability(l) <= EntryOrder(entries[0])
  {
    if entries != [] {
      var rest := FirstPlaces(entries[1..], seen + {entries[0].locator});
      assert entries[0] in entries && forall e :: e in entries[1..] ==> e in entries;
      FirstPlacesDescend(entries[1..], seen + {entries[0].locator});
      forall l | l in rest ensures Stability(l) <= EntryOrder(entries[0]) {
        assert |entries| > 1 && EntryOrder(entries[1]) <= EntryOrder(entries[0]);
      }
    }
  }

  /** So the generated list is already in the order of rank_locators, and ranking it again changes nothing. */
  lemma {:induction false} GeneratedIsRanked(fp: Fingerprint)
    requires PlainFingerprint(fp)
    ensures Ranked(Generated(fp)) == Generated(fp)
    ensures forall e :: e in Entries(fp) ==> Priority(e.locator) == e.bucket
  {
    var entries := Entries(fp);
    EntriesRanked(fp);
    forall e ensures e in SortDesc(entries, EntryOrder) <==> e in entries {
      SortMember(entries, EntryOrder, e);
    }
    SortSorted(entries, EntryOrder);
    FirstPlacesDescend(SortDesc(entries, EntryOrder), {});
    SortOfSorted(Generated(fp), Stability);
    assert forall e :: e in entries ==> RankedAsMeant(e);
  }

  /** Taking the escapes out again. */
  function Unescaped(text: string): string {
    if text == "" then ""
    else if |text| > 1 && text[0] == '\\' && text[1] == '"' then ['"'] + Unescaped(text[2..])
    else [text[0]] + Unescaped(text[1..])
  }

  /** No quote stands in an escaped text without a backslash before it, and taking the escapes out gives the text back. */
  lemma {:induction false} EscapedUndone(text: string)
    ensures Unescaped(Escaped(text)) == text
    ensures Escaped(text) != "" ==> Escaped(text)[0] != '"'
    ensures forall i :: 0 <= i < |Escaped(text)| && Escaped(text)[i] == '"' ==> i > 0 && Escaped(text)[i - 1] == '\\'
  {
    if text != "" {
      EscapedUndone(text[1..]);
      var e, rest := Escaped(text), Escaped(text[1..]);
      assert text == [text[0]] + text[1..];
      if text[0] == '"' {
        assert e == ['\\', '"'] + rest && e[2..] == rest;
      } else {
        assert e == [text[0]] + rest && e[1..] == rest;
        assert |e| > 1 ==> e[1] == rest[0];
      }
    }
  }

  /** What is shown of a text is its first 80 characters, escaped. */
  lemma ShownUndone(text: string)
    ensures Unescaped(Shown(text)) == if |text| <= 80 then text else text[..80]
  {
    EscapedUndone(if |text| > 80 then text[..80] else text);
  }

  /** Class lists are written class by class, and empty classes left out. */
  lemma {:induction false} DottedJoined(a: seq<string>, b: seq<string>, c: string)
    ensures Dotted(a + b) == Dotted(a) + Dotted(b)
    ensures Dotted([c]) == if c == "" then "" else "." + c
  {
    assert [c][1..] == [] && Dotted([]) == "";
    if a == [] {
      assert a + b == b;
    } else {
      assert (a + b)[1..] == a[1..] + b;
      DottedJoined(a[1..], b, c);
    }
  }

  // The forms of locators, each with what it takes.

  predicate ByName(fp: Fingerprint, l: string) {
    var one := if DATA_TESTID in fp.attributes then fp.attributes[DATA_TESTID] else "";
    var two := if DATA_TEST_ID in fp.attributes then fp.attributes[DATA_TEST_ID] else "";
    || (one != "" && l == "[data-testid=\"" + one + "\"]")
    || (one == "" && two != "" && l == "[data-testid=\"" + two + "\"]")
    || (fp.role != "" && fp.ariaLabel != "" && l == "[role=\"" + fp.role + "\"][aria-label=\"" + fp.ariaLabel + "\"]")
    || (fp.role != "" && fp.ariaLabel == "" && fp.text != ""
        && l == "[role=\"" + fp.role + "\"]:has-text(\"" + Shown(fp.text) + "\")")
    || (fp.id != "" && l == "#" + fp.id)
    || (fp.ariaLabel != "" && l == "[aria-label=\"" + fp.ariaLabel + "\"]")
  }

  predicate ByMark(fp: Fingerprint, tag: string, l: string) {
    var kind := if TYPE in fp.attributes then fp.attributes[TYPE] else "";
    || (fp.name != "" && l == tag + "[name=\"" + fp.name + "\"]")
    || (fp.placeholder != "" && l == "[placeholder=\"" + fp.placeholder + "\"]")
    || (fp.text != "" && l == tag + ":has-text(\"" + Shown(fp.text) + "\")")
    || (kind != "" && l == tag + "[type='" + kind + "']")
  }

  predicate ByPlace(fp: Fingerprint, tag: string, l: string) {
    || (Dotted(fp.classes) != "" && l == tag + Dotted(fp.classes))
    || (fp.id != "" && l == "//" + tag + "[@id=\"" + fp.id + "\"]")
    || (fp.id == "" && fp.text != "" && l == "//" + tag + "[contains(normalize-space(),\"" + Shown(fp.text) + "\")]")
    || (fp.id == "" && fp.text == "" && l == "//" + tag)
  }

  lemma NamedForms(fp: Fingerprint, l: string)
    ensures ByName(fp, l) <==> l in LocatorsOf(NamedEntries(fp))
  {
    var entries := NamedEntries(fp);
    if ByName(fp, l) {
      assert exists e :: e in entries && e.locator == l;
    }
  }

  lemma MarkedForms(fp: Fingerprint, tag: string, l: string)
    ensures ByMark(fp, tag, l) <==> l in LocatorsOf(MarkedEntries(fp, tag))
  {
    var entries := MarkedEntries(fp, tag);
    if ByMark(fp, tag, l) {
      assert exists e :: e in entries && e.locator == l;
    }
  }

  lemma PlacedForms(fp: Fingerprint, tag: string, l: string)
    ensures ByPlace(fp, tag, l) <==> l in LocatorsOf(PlacedEntries(fp, tag))
  {
    var entries := PlacedEntries(fp, tag);
    if ByPlace(fp, tag, l) {
      assert exists e :: e in entries && e.locator == l;
    }
  }

  /** A locator is generated iff it is of one of these forms; `*` stands for an unknown tag. */
  lemma {:induction false} GeneratedByField(fp: Fingerprint, l: string)
    ensures var tag := if fp.tag == "" then "*" else fp.tag;
            l in Generated(fp) <==> l != "" && (ByName(fp, l) || ByMark(fp, tag, l) || ByPlace(fp, tag, l))
  {
    var tag := TagOf(fp);
    GeneratedFacts(fp);
    NamedForms(fp, l);
    MarkedForms(fp, tag, l);
    PlacedForms(fp, tag, l);
    assert LocatorsOf(Entries(fp))
        == LocatorsOf(NamedEntries(fp)) + LocatorsOf(MarkedEntries(fp, tag)) + LocatorsOf(PlacedEntries(fp, tag));
  }
}
