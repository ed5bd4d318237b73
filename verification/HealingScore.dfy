/** What is stored of an element, and read from a live one (engine/schemas.py).  An absent text is "". */
module Fingerprints {
  import opened Sequences

  datatype Box = Box(x: real, y: real, width: real, height: real)

  /** The attributes that are compared; the others are kept, but nothing looks at them. */
  datatype Key =
    | ID | NAME | PLACEHOLDER | ARIA_LABEL | ROLE
    | DATA_TESTID | DATA_TEST_ID | TYPE | AUTOCOMPLETE | HREF | FOR

  datatype Fingerprint = Fingerprint(
    tag: string, id: string, classes: seq<string>, text: string, role: string, ariaLabel: string,
    name: string, placeholder: string, attributes: map<Key, string>,
    parentChain: seq<string>, siblingIndex: Option<int>, box: Option<Box>)

  function Attr(fp: Fingerprint, key: Key): string {
    if key in fp.attributes then fp.attributes[key] else ""
  }

  /** An identifying attribute, kept in a field of its own or among the other attributes. */
  function Value(fp: Fingerprint, key: Key): string {
    match key
    case ID => fp.id
    case NAME => fp.name
    case PLACEHOLDER => fp.placeholder
    case ARIA_LABEL => fp.ariaLabel
    case ROLE => fp.role
    case _ => Attr(fp, key)
  }
}

/** Similarity of two fingerprints (engine/healer.py). */
module HealingScore {
  import opened Sequences
  import opened Fingerprints
  import opened Rounding

  const FIELDS: seq<Key> := [ID, NAME, PLACEHOLDER, ARIA_LABEL, ROLE]
  const STABLE: seq<Key> := [DATA_TESTID, DATA_TEST_ID, TYPE, AUTOCOMPLETE, HREF, FOR]
  const IDENTITY: seq<Key> := [ID, NAME, PLACEHOLDER, ARIA_LABEL, HREF]
  const TEXT_LIKE: seq<string> := ["", "text", "email", "password", "search", "tel", "url", "number"]

  const ID_ANCHOR := 0.85
  const NO_IDENTITY_CAP := 0.6
  const TEXT_SAME := 0.8
  const FALLOFF := 300.0

  datatype Signals = Signals(attribute: real, text: real, position: real, structure: real)

  /** Code the model does not see: the fuzzy text ratio, in percent, and the square root. */
  datatype Library = Library(ratio: (string, string) -> real, root: real -> real)

  ghost predicate SoundLibrary(lib: Library) {
    && (forall a, b :: 0.0 <= lib.ratio(a, b) <= 100.0)
    && (forall a :: lib.ratio(a, a) == 100.0)
    && lib.root(0.0) == 0.0 && (forall x :: x >= 0.0 ==> lib.root(x) >= 0.0)
  }

  function Sum(s: seq<real>): real {
    if s == [] then 0.0 else s[0] + Sum(s[1..])
  }

  /** `sum(s) / len(s) if s else 0.5` */
  function Mean(s: seq<real>): real {
    if s == [] then 0.5 else Sum(s) / |s| as real
  }

  // ---- Signals ----

  /** A key that the stored element has and that the failed locator did not rely on. */
  predicate Counts(stored: Fingerprint, ignore: set<Key>, k: Key) {
    Value(stored, k) != "" && k !in ignore
  }

  function Kept(stored: Fingerprint, ignore: set<Key>): set<Key> {
    set k: Key | Counts(stored, ignore, k)
  }

  function Matched(stored: Fingerprint, live: Fingerprint, ignore: set<Key>): set<Key> {
    set k: Key | Counts(stored, ignore, k) && Value(live, k) == Value(stored, k)
  }

  function Overlap(a: seq<string>, b: seq<string>): real
    requires a != []
  {
    assert a[0] in Elements(a) + Elements(b);
    |Elements(a) * Elements(b)| as real / |Elements(a) + Elements(b)| as real
  }

  /** The fraction of what identifies the stored element that the live one shares; class lists count as one item. */
  function AttributeScore(stored: Fingerprint, live: Fingerprint, ignore: set<Key>): real {
    var kept, matched := |Kept(stored, ignore)| as real, |Matched(stored, live, ignore)| as real;
    if stored.classes != [] then (matched + Overlap(stored.classes, live.classes)) / (kept + 1.0)
    else if kept > 0.0 then matched / kept
    else 0.5
  }

  lemma {:induction false} SumAppend(s: seq<real>, x: real)
    ensures Sum(s + [x]) == Sum(s) + x
  {
    if s == [] {
      assert [x][1..] == [];
    } else {
      assert (s + [x])[1..] == s[1..] + [x];
      SumAppend(s[1..], x);
    }
  }

  lemma FieldsOrStable(k: Key)
    ensures k in FIELDS <==> k !in STABLE
    ensures Distinct(FIELDS) && Distinct(STABLE)
  {
  }

  lemma CountStep(keys: seq<Key>, i: nat, s: set<Key>)
    requires Distinct(keys) && i < |keys|
    ensures |Elements(keys[..i + 1]) * s| == |Elements(keys[..i]) * s| + (if keys[i] in s then 1 else 0)
  {
    var k := keys[i];
    assert keys[..i + 1] == keys[..i] + [k] && k !in Elements(keys[..i]);
    assert Elements(keys[..i + 1]) * s == Elements(keys[..i]) * s + (if k in s then {k} else {});
  }

  /** The loop that the source runs over the fields, and again over the stable attributes. */
  method CheckKeys(keys: seq<Key>, before: seq<real>, stored: Fingerprint, live: Fingerprint, ignore: set<Key>)
    returns (checks: seq<real>)
    requires Distinct(keys)
    ensures |checks| == |before| + |Elements(keys) * Kept(stored, ignore)|
    ensures Sum(checks) == Sum(before) + |Elements(keys) * Matched(stored, live, ignore)| as real
  {
    checks := before;
    for i := 0 to |keys|
      invariant |checks| == |before| + |Elements(keys[..i]) * Kept(stored, ignore)|
      invariant Sum(checks) == Sum(before) + |Elements(keys[..i]) * Matched(stored, live, ignore)| as real
    {
      CountStep(keys, i, Kept(stored, ignore));
      CountStep(keys, i, Matched(stored, live, ignore));
      if keys[i] in ignore {
        continue;
      }
      var expected := Value(stored, keys[i]);
      if expected != "" {
        var check := if Value(live, keys[i]) == expected then 1.0 else 0.0;
        SumAppend(checks, check);
        checks := checks + [check];
      }
    }
    assert keys[..|keys|] == keys;
  }

  lemma SplitKeys(s: set<Key>)
    ensures |Elements(FIELDS) * s| + |Elements(STABLE) * s| == |s|
  {
    forall k ensures k in FIELDS <==> k !in STABLE {
      FieldsOrStable(k);
    }
    assert Elements(FIELDS) * s + Elements(STABLE) * s == s && (Elements(FIELDS) * s) * (Elements(STABLE) * s) == {};
  }

  method CheckAttributes(stored: Fingerprint, live: Fingerprint, ignore: set<Key>) returns (checks: seq<real>)
    ensures |checks| == |Kept(stored, ignore)| && Sum(checks) == |Matched(stored, live, ignore)| as real
  {
    FieldsOrStable(ID);
    checks := CheckKeys(FIELDS, [], stored, live, ignore);
    checks := CheckKeys(STABLE, checks, stored, live, ignore);
    SplitKeys(Kept(stored, ignore));
    SplitKeys(Matched(stored, live, ignore));
  }

  method AttributeSignal(stored: Fingerprint, live: Fingerprint, ignore: set<Key>) returns (signal: real)
    ensures signal == AttributeScore(stored, live, ignore)
  {
    var checks := CheckAttributes(stored, live, ignore);
    if stored.classes != [] {
      SumAppend(checks, Overlap(stored.classes, live.classes));
      checks := checks + [Overlap(stored.classes, live.classes)];
    }
    signal := if checks == [] then 0.5 else Sum(checks) / |checks| as real;
  }

  function TextSignal(lib: Library, stored: Fingerprint, live: Fingerprint): real {
    if stored.text == "" && live.text == "" then 1.0
    else if stored.text == "" || live.text == "" then 0.0
    else lib.ratio(stored.text, live.text) / 100.0
  }

  /** What is left after a move, at the distance by the theorem of Pythagoras. */
  function Faded(lib: Library, dx: real, dy: real): real {
    Max(0.0, 1.0 - lib.root(dx * dx + dy * dy) / FALLOFF)
  }

  function PositionSignal(lib: Library, stored: Fingerprint, live: Fingerprint): real {
    if stored.box.None? || live.box.None? then 0.5
    else
      var a, b := stored.box.value, live.box.value;
      Faded(lib, (a.x + a.width / 2.0) - (b.x + b.width / 2.0), (a.y + a.height / 2.0) - (b.y + b.height / 2.0))
  }

  /** Positions at which both chains hold the same ancestor. */
  function Same(a: seq<string>, b: seq<string>): (n: nat)
    ensures n <= |a| && n <= |b|
  {
    if a == [] || b == [] then 0 else (if a[0] == b[0] then 1 else 0) + Same(a[1..], b[1..])
  }

  function StructureParts(stored: Fingerprint, live: Fingerprint): seq<real> {
    var a, b := stored.parentChain, live.parentChain;
    (if a != [] || b != [] then [Same(a, b) as real / (if |a| >= |b| then |a| else |b|) as real] else [])
    + (if stored.siblingIndex.Some? then [if stored.siblingIndex == live.siblingIndex then 1.0 else 0.0] else [])
  }

  function SignalsOf(lib: Library, stored: Fingerprint, live: Fingerprint, ignore: set<Key>): Signals {
    Signals(AttributeScore(stored, live, ignore), TextSignal(lib, stored, live),
            PositionSignal(lib, stored, live), Mean(StructureParts(stored, live)))
  }

  // ---- Identity and kind ----

  /** ASCII lower case, enough for input types */
  function Lower(s: string): string {
    if s == "" then ""
    else [if 'A' <= s[0] <= 'Z' then s[0] - 'A' + 'a' else s[0]] + Lower(s[1..])
  }

  function InputKind(fp: Fingerprint): Option<string> {
    if fp.tag != "input" then None
    else
      var kind := Lower(Attr(fp, TYPE));
      Some(if kind in TEXT_LIKE then "text" else kind)
  }

  function SameText(lib: Library, stored: Fingerprint, live: Fingerprint): bool {
    live.text != "" && lib.ratio(stored.text, live.text) / 100.0 >= TEXT_SAME
  }

  /** A feature that tells elements apart: an attribute, or the text. */
  datatype Feature = Attribute(key: Key) | Text

  /** The identifying features of the stored element; the role and what the failed locator used are none. */
  function Identifying(stored: Fingerprint, ignore: set<Key>): set<Feature> {
    (set k | k in IDENTITY && Counts(stored, ignore, k) :: Attribute(k))
    + (if stored.text != "" then {Text} else {})
  }

  predicate Shares(lib: Library, stored: Fingerprint, live: Fingerprint, f: Feature) {
    match f
    case Text => SameText(lib, stored, live)
    case Attribute(key) => Value(live, key) == Value(stored, key)
  }

  /** None when the stored element has nothing to compare. */
  function IdentityMatches(lib: Library, stored: Fingerprint, live: Fingerprint, ignore: set<Key>): Option<bool> {
    var features := Identifying(stored, ignore);
    if features == {} then None else Some(exists k :: k in features && Shares(lib, stored, live, k))
  }

  lemma IdentityKeys(k: Key)
    ensures k in IDENTITY <==> (k in FIELDS && k != ROLE) || k == HREF
  {
  }

  /** The source's loop over the fields; the role identifies nothing. */
  method MatchFields(keys: seq<Key>, stored: Fingerprint, live: Fingerprint, ignore: set<Key>)
    returns (checks: seq<bool>)
    ensures checks != [] <==> exists k :: k in keys && k != ROLE && Counts(stored, ignore, k)
    ensures true in checks <==>
      exists k :: k in keys && k != ROLE && Counts(stored, ignore, k) && Value(live, k) == Value(stored, k)
  {
    checks := [];
    for i := 0 to |keys|
      invariant checks != [] <==> exists k :: k in keys[..i] && k != ROLE && Counts(stored, ignore, k)
      invariant true in checks <==>
        exists k :: k in keys[..i] && k != ROLE && Counts(stored, ignore, k) && Value(live, k) == Value(stored, k)
    {
      assert keys[..i + 1] == keys[..i] + [keys[i]];
      var expected := Value(stored, keys[i]);
      if keys[i] != ROLE && keys[i] !in ignore && expected != "" {
        assert Counts(stored, ignore, keys[i]) && keys[i] in keys[..i + 1];
        checks := checks + [Value(live, keys[i]) == expected];
      }
    }
    assert keys[..|keys|] == keys;
  }

  /** The fields, then text and href. */
  method CollectIdentity(lib: Library, stored: Fingerprint, live: Fingerprint, ignore: set<Key>)
    returns (r: Option<bool>)
    ensures r == IdentityMatches(lib, stored, live, ignore)
  {
    var checks := MatchFields(FIELDS, stored, live, ignore);
    ghost var fields := checks;
    if stored.text != "" {
      checks := checks + [SameText(lib, stored, live)];
    }
    if Attr(stored, HREF) != "" && HREF !in ignore {
      checks := checks + [Attr(live, HREF) == Attr(stored, HREF)];
    }
    IdentityOfChecks(lib, stored, live, ignore, fields, checks);
    return if checks == [] then None else Some(true in checks);
  }

  lemma IdentityOfChecks(lib: Library, stored: Fingerprint, live: Fingerprint, ignore: set<Key>,
                         fields: seq<bool>, checks: seq<bool>)
    requires fields != [] <==> exists k :: k in FIELDS && k != ROLE && Counts(stored, ignore, k)
    requires true in fields <==>
      exists k :: k in FIELDS && k != ROLE && Counts(stored, ignore, k) && Value(live, k) == Value(stored, k)
    requires checks == fields + (if stored.text != "" then [SameText(lib, stored, live)] else [])
      + (if Counts(stored, ignore, HREF) then [Value(live, HREF) == Value(stored, HREF)] else [])
    ensures checks == [] <==> Identifying(stored, ignore) == {}
    ensures true in checks <==> exists f :: f in Identifying(stored, ignore) && Shares(lib, stored, live, f)
  {
    var features := Identifying(stored, ignore);
    forall k ensures Attribute(k) in features <==> ((k in FIELDS && k != ROLE) || k == HREF) && Counts(stored, ignore, k) {
      IdentityKeys(k);
    }
    assert Text in features <==> stored.text != "";
    if fields != [] {
      var k :| k in FIELDS && k != ROLE && Counts(stored, ignore, k);
      assert Attribute(k) in features;
    }
    if true in fields {
      var k :| k in FIELDS && k != ROLE && Counts(stored, ignore, k) && Value(live, k) == Value(stored, k);
      assert Attribute(k) in features && Shares(lib, stored, live, Attribute(k));
    }
    if Counts(stored, ignore, HREF) {
      assert Attribute(HREF) in features;
    }
  }

  // ---- The score ----

  function Weighted(s: Signals): real {
    0.4 * s.attribute + 0.2 * s.text + 0.2 * s.position + 0.2 * s.structure
  }

  /** Unchanged identifier, on an identifier the failed locator did not use. */
  predicate Anchored(stored: Fingerprint, live: Fingerprint, ignore: set<Key>) {
    ID !in ignore && stored.id != "" && live.id == stored.id
  }

  predicate OtherElement(stored: Fingerprint, live: Fingerprint) {
    (stored.tag != "" && live.tag != "" && stored.tag != live.tag) || InputKind(stored) != InputKind(live)
  }

  /** `score_fingerprint`: the composite score; the signals are SignalsOf. */
  function Score(lib: Library, stored: Fingerprint, live: Fingerprint, ignore: set<Key>): real {
    if OtherElement(stored, live) then 0.0
    else
      var w := Weighted(SignalsOf(lib, stored, live, ignore));
      var judged :=
        if IdentityMatches(lib, stored, live, ignore) == Some(false) then Min(w, NO_IDENTITY_CAP)
        else if Anchored(stored, live, ignore) then Max(w, ID_ANCHOR)
        else w;
      Round4(Min(Max(judged, 0.0), 1.0))
  }

  // ---- Bounds ----

  predicate Unit(x: real) { 0.0 <= x <= 1.0 }

  lemma {:induction false} SumBetween(s: seq<real>)
    requires forall i :: 0 <= i < |s| ==> Unit(s[i])
    ensures 0.0 <= Sum(s) <= |s| as real
  {
    if s != [] {
      assert Unit(s[0]);
      assert forall i :: 0 <= i < |s[1..]| ==> s[1..][i] == s[i + 1];
      SumBetween(s[1..]);
    }
  }

  lemma FractionIsUnit(a: real, b: real)
    requires 0.0 <= a <= b && b > 0.0
    ensures Unit(a / b)
  {
    assert a / b * b == a;
  }

  lemma MeanIsUnit(s: seq<real>)
    requires forall i :: 0 <= i < |s| ==> Unit(s[i])
    ensures Unit(Mean(s))
  {
    if s != [] {
      SumBetween(s);
      FractionIsUnit(Sum(s), |s| as real);
    }
  }

  lemma Cardinality(a: set<string>, b: set<string>)
    requires a <= b
    ensures |a| <= |b|
  {
    assert b == a + (b - a);
  }

  lemma OverlapIsUnit(a: seq<string>, b: seq<string>)
    requires a != []
    ensures Unit(Overlap(a, b))
  {
    assert a[0] in Elements(a) + Elements(b);
    Cardinality(Elements(a) * Elements(b), Elements(a) + Elements(b));
    FractionIsUnit(|Elements(a) * Elements(b)| as real, |Elements(a) + Elements(b)| as real);
  }

  lemma AttributeIsUnit(stored: Fingerprint, live: Fingerprint, ignore: set<Key>)
    ensures Unit(AttributeScore(stored, live, ignore))
  {
    var kept, matched := Kept(stored, ignore), Matched(stored, live, ignore);
    assert kept == matched + (kept - matched);
    if stored.classes != [] {
      OverlapIsUnit(stored.classes, live.classes);
      FractionIsUnit(|matched| as real + Overlap(stored.classes, live.classes), |kept| as real + 1.0);
    } else if kept != {} {
      FractionIsUnit(|matched| as real, |kept| as real);
    }
  }

  lemma StructureIsUnit(stored: Fingerprint, live: Fingerprint)
    ensures Unit(Mean(StructureParts(stored, live)))
  {
    var a, b := stored.parentChain, live.parentChain;
    if a != [] || b != [] {
      FractionIsUnit(Same(a, b) as real, (if |a| >= |b| then |a| else |b|) as real);
    }
    MeanIsUnit(StructureParts(stored, live));
  }

  lemma FadedIsUnit(lib: Library, dx: real, dy: real)
    requires SoundLibrary(lib)
    ensures Unit(Faded(lib, dx, dy))
  {
    assert dx * dx >= 0.0 && dy * dy >= 0.0;
    assert lib.root(dx * dx + dy * dy) >= 0.0;
  }

  lemma PositionIsUnit(lib: Library, stored: Fingerprint, live: Fingerprint)
    requires SoundLibrary(lib)
    ensures Unit(PositionSignal(lib, stored, live))
  {
    if stored.box.Some? && live.box.Some? {
      var a, b := stored.box.value, live.box.value;
      FadedIsUnit(lib, (a.x + a.width / 2.0) - (b.x + b.width / 2.0), (a.y + a.height / 2.0) - (b.y + b.height / 2.0));
    }
  }

  /** Every signal and the score itself stay between 0 and 1. */
  lemma {:induction false} ScoreIsUnit(lib: Library, stored: Fingerprint, live: Fingerprint, ignore: set<Key>)
    requires SoundLibrary(lib)
    ensures var s := SignalsOf(lib, stored, live, ignore);
            Unit(s.attribute) && Unit(s.text) && Unit(s.position) && Unit(s.structure)
    ensures Unit(Score(lib, stored, live, ignore))
  {
    AttributeIsUnit(stored, live, ignore);
    PositionIsUnit(lib, stored, live);
    StructureIsUnit(stored, live);
    RoundUnit(lib, stored, live, ignore);
  }

  lemma RoundUnit(lib: Library, stored: Fingerprint, live: Fingerprint, ignore: set<Key>)
    ensures Unit(Score(lib, stored, live, ignore))
  {
    forall x ensures Unit(Round4(Min(Max(x, 0.0), 1.0))) {
      Round4Between(0, Min(Max(x, 0.0), 1.0), 10000);
    }
  }

  // ---- Look-alikes ----

  /** Not the stored element: another tag or input kind, or none of its identifying features. */
  predicate LookAlike(lib: Library, stored: Fingerprint, live: Fingerprint, ignore: set<Key>) {
    OtherElement(stored, live) || IdentityMatches(lib, stored, live, ignore) == Some(false)
  }

  lemma {:induction false} LookAlikeScoresLow(lib: Library, stored: Fingerprint, live: Fingerprint, ignore: set<Key>)
    requires LookAlike(lib, stored, live, ignore)
    ensures Score(lib, stored, live, ignore) <= 0.6
  {
    if !OtherElement(stored, live) {
      var x := Min(Max(Min(Weighted(SignalsOf(lib, stored, live, ignore)), NO_IDENTITY_CAP), 0.0), 1.0);
      Round4Between(0, x, 6000);
    }
  }

  /** An element known by its id alone. */
  function KnownById(id: string): Fingerprint {
    Fingerprint("input", id, [], "", "", "", "", "", map[], [], Some(0), Some(Box(0.0, 0.0, 10.0, 10.0)))
  }

  lemma OnlyTheId(k: Key)
    ensures k == ID ==> Value(KnownById("a"), k) == "a" && Value(KnownById("b"), k) == "b"
    ensures k != ID ==> Value(KnownById("a"), k) == ""
  {
  }

  lemma AnotherIdSharesNothing(lib: Library)
    ensures IdentityMatches(lib, KnownById("a"), KnownById("b"), {}) == Some(false)
  {
    var stored, live := KnownById("a"), KnownById("b");
    assert Attribute(ID) in Identifying(stored, {});
    forall f | f in Identifying(stored, {}) ensures !Shares(lib, stored, live, f) {
      OnlyTheId(f.key);
    }
  }

  lemma CapReached(lib: Library, stored: Fingerprint, live: Fingerprint, ignore: set<Key>)
    requires !OtherElement(stored, live) && IdentityMatches(lib, stored, live, ignore) == Some(false)
    requires SignalsOf(lib, stored, live, ignore) == Signals(0.0, 1.0, 1.0, 1.0)
    ensures Score(lib, stored, live, ignore) == 0.6
  {
    Round4Exact(6000);
  }

  lemma AnotherIdSignals(lib: Library)
    requires SoundLibrary(lib)
    ensures SignalsOf(lib, KnownById("a"), KnownById("b"), {}) == Signals(0.0, 1.0, 1.0, 1.0)
  {
    var stored, live := KnownById("a"), KnownById("b");
    forall k ensures k !in Matched(stored, live, {}) {
      OnlyTheId(k);
    }
    assert Matched(stored, live, {}) == {} && ID in Kept(stored, {});
    assert StructureParts(stored, live) == [1.0] && Sum([1.0]) == 1.0 + Sum([]);
  }

  /** The cap is reached: a stored element and a look-alike of it that scores 0.6. */
  lemma LookAlikeReachesCap(lib: Library)
    requires SoundLibrary(lib)
    ensures LookAlike(lib, KnownById("a"), KnownById("b"), {})
    ensures Score(lib, KnownById("a"), KnownById("b"), {}) == 0.6
  {
    AnotherIdSharesNothing(lib);
    AnotherIdSignals(lib);
    CapReached(lib, KnownById("a"), KnownById("b"), {});
  }

  // ---- The unchanged element ----

  predicate HasAttribute(s: Fingerprint, ignore: set<Key>) {
    Kept(s, ignore) != {} || s.classes != []
  }

  predicate HasStructure(s: Fingerprint) { s.parentChain != [] || s.siblingIndex.Some? }

  lemma {:induction false} SumOfOnes(s: seq<real>)
    requires forall i :: 0 <= i < |s| ==> s[i] == 1.0
    ensures Sum(s) == |s| as real
  {
    if s != [] {
      SumOfOnes(s[1..]);
    }
  }

  lemma {:induction false} SameAsItself(a: seq<string>)
    ensures Same(a, a) == |a|
  {
    if a != [] {
      SameAsItself(a[1..]);
    }
  }

  lemma OwnOverlap(a: seq<string>)
    requires a != []
    ensures Overlap(a, a) == 1.0
  {
    assert a[0] in Elements(a) + Elements(a);
    assert Elements(a) * Elements(a) == Elements(a) + Elements(a);
  }

  lemma OwnRatio(x: real)
    requires x > 0.0
    ensures x / x == 1.0
  {
  }

  lemma OwnAttributes(s: Fingerprint, ignore: set<Key>)
    ensures AttributeScore(s, s, ignore) == if HasAttribute(s, ignore) then 1.0 else 0.5
  {
    assert Matched(s, s, ignore) == Kept(s, ignore);
    var kept := |Kept(s, ignore)| as real;
    if s.classes != [] {
      OwnOverlap(s.classes);
      OwnRatio(kept + 1.0);
    } else if Kept(s, ignore) != {} {
      assert kept > 0.0;
      OwnRatio(kept);
    }
  }

  lemma OwnStructure(s: Fingerprint)
    ensures Mean(StructureParts(s, s)) == if HasStructure(s) then 1.0 else 0.5
  {
    SameAsItself(s.parentChain);
    SumOfOnes(StructureParts(s, s));
  }

  lemma OwnPosition(lib: Library, s: Fingerprint)
    requires SoundLibrary(lib)
    ensures PositionSignal(lib, s, s) == if s.box.Some? then 1.0 else 0.5
  {
  }

  lemma OwnSignals(lib: Library, s: Fingerprint, ignore: set<Key>)
    requires SoundLibrary(lib)
    ensures SignalsOf(lib, s, s, ignore)
         == Signals(if HasAttribute(s, ignore) then 1.0 else 0.5, 1.0, if s.box.Some? then 1.0 else 0.5,
                    if HasStructure(s) then 1.0 else 0.5)
  {
    OwnAttributes(s, ignore);
    OwnStructure(s);
    OwnPosition(lib, s);
  }

  lemma OwnIdentity(lib: Library, s: Fingerprint, ignore: set<Key>)
    requires SoundLibrary(lib)
    ensures IdentityMatches(lib, s, s, ignore) != Some(false)
  {
    if Identifying(s, ignore) != {} {
      var k :| k in Identifying(s, ignore);
      assert Shares(lib, s, s, k);
    }
  }

  /**
   * An unchanged element scores 1 less 0.2 for want of any comparable attribute, 0.1 for want of a box and
   * 0.1 for want of structure, and at least 0.85 with an id to rely on; so exactly 1 iff it has all three.
   */
  lemma {:induction false} UnchangedScore(lib: Library, s: Fingerprint, ignore: set<Key>)
    requires SoundLibrary(lib)
    ensures var plain := 1.0 - (if HasAttribute(s, ignore) then 0.0 else 0.2) - (if s.box.Some? then 0.0 else 0.1)
                         - (if HasStructure(s) then 0.0 else 0.1);
            Score(lib, s, s, ignore) == if Anchored(s, s, ignore) then Max(plain, 0.85) else plain
    ensures Score(lib, s, s, ignore) == 1.0 <==> HasAttribute(s, ignore) && s.box.Some? && HasStructure(s)
  {
    OwnSignals(lib, s, ignore);
    OwnIdentity(lib, s, ignore);
    Round4Exact(10000);
    Round4Exact(9000);
    Round4Exact(8500);
    Round4Exact(8000);
    Round4Exact(7000);
    Round4Exact(6000);
  }

  // ---- The signals in terms of the fields ----

  /** Text: whole without any, none where only one element has text, and otherwise the ratio as a fraction. */
  lemma TextByRatio(lib: Library, stored: Fingerprint, live: Fingerprint, ignore: set<Key>)
    ensures var s := SignalsOf(lib, stored, live, ignore).text;
            && (|stored.text| + |live.text| == 0 ==> s == 1.0)
            && ((|stored.text| == 0) != (|live.text| == 0) ==> s == 0.0)
            && (|stored.text| > 0 && |live.text| > 0 ==> s * 100.0 == lib.ratio(stored.text, live.text))
  {
  }

  lemma FadedBack(lib: Library, dx: real, dy: real)
    ensures Faded(lib, -dx, -dy) == Faded(lib, dx, dy) == Max(0.0, 1.0 - lib.root(dx * dx + dy * dy) / 300.0)
  {
    assert (-dx) * (-dx) + (-dy) * (-dy) == dx * dx + dy * dy;
  }

  /** Position: a box moved by (dx, dy) loses the distance over 300; growing around its centre costs nothing. */
  lemma PositionFades(lib: Library, stored: Fingerprint, live: Fingerprint, ignore: set<Key>,
                      b: Box, dx: real, dy: real, g: real, h: real)
    requires stored.box == Some(b)
    requires live.box == Some(Box(b.x + dx - g, b.y + dy - h, b.width + 2.0 * g, b.height + 2.0 * h))
    ensures SignalsOf(lib, stored, live, ignore).position == Max(0.0, 1.0 - lib.root(dx * dx + dy * dy) / 300.0)
  {
    FadedBack(lib, dx, dy);
  }

  /** The positions at which two chains hold the same ancestor. */
  function Agreeing(a: seq<string>, b: seq<string>, n: nat): set<int>
    requires n <= |a| && n <= |b|
  {
    set i | 0 <= i < n && a[i] == b[i]
  }

  lemma {:induction false} SameOneMore(a: seq<string>, b: seq<string>, n: nat)
    requires n < |a| && n < |b|
    ensures Same(a[..n + 1], b[..n + 1]) == Same(a[..n], b[..n]) + if a[n] == b[n] then 1 else 0
  {
    if n > 0 {
      assert a[..n + 1][1..] == a[1..][..n] && b[..n + 1][1..] == b[1..][..n];
      assert a[..n][1..] == a[1..][..n - 1] && b[..n][1..] == b[1..][..n - 1];
      SameOneMore(a[1..], b[1..], n - 1);
    } else {
      assert a[..1][1..] == [] && b[..1][1..] == [];
    }
  }

  lemma {:induction false} SameUpTo(a: seq<string>, b: seq<string>, n: nat)
    requires n <= |a| && n <= |b|
    ensures Same(a[..n], b[..n]) == |Agreeing(a, b, n)|
  {
    if n > 0 {
      SameUpTo(a, b, n - 1);
      SameOneMore(a, b, n - 1);
      assert Agreeing(a, b, n) == Agreeing(a, b, n - 1) + if a[n - 1] == b[n - 1] then {n - 1} else {};
    } else {
      assert Agreeing(a, b, 0) == {};
    }
  }

  lemma {:induction false} SameBeyond(a: seq<string>, b: seq<string>, n: nat)
    requires n <= |a| && n <= |b| && (n == |a| || n == |b|)
    ensures Same(a, b) == Same(a[..n], b[..n])
  {
    if n > 0 {
      assert a[..n][1..] == a[1..][..n - 1] && b[..n][1..] == b[1..][..n - 1];
      SameBeyond(a[1..], b[1..], n - 1);
    }
  }

  lemma MeanOfOne(x: real)
    ensures Mean([x]) == x
  {
    assert [x][1..] == [] && Sum([x]) == x + Sum([]) == x;
    assert x / 1.0 == x;
  }

  lemma MeanOfTwo(x: real, y: real)
    ensures Mean([x, y]) * 2.0 == x + y
  {
    assert [x, y][1..] == [y] && [y][1..] == [] && Sum([y]) == y + Sum([]) == y;
    assert (x + y) / 2.0 * 2.0 == x + y;
  }

  /**
   * Structure: the share of positions, of the longer chain, with the same ancestor, and whether the sibling index is the
   * same, at equal weight; one alone where the other is not known, and one half where neither is.
   */
  lemma {:induction false} StructureByPosition(lib: Library, stored: Fingerprint, live: Fingerprint, ignore: set<Key>)
    ensures var a, b, s := stored.parentChain, live.parentChain, SignalsOf(lib, stored, live, ignore).structure;
            var longer := if |a| >= |b| then |a| else |b|;
            var agreeing := |Agreeing(a, b, if |a| >= |b| then |b| else |a|)|;
            var indexed := if stored.siblingIndex == live.siblingIndex then 1.0 else 0.0;
            && (longer > 0 && stored.siblingIndex.Some? ==> s * 2.0 == agreeing as real / longer as real + indexed)
            && (longer > 0 && stored.siblingIndex.None? ==> s == agreeing as real / longer as real)
            && (longer == 0 && stored.siblingIndex.Some? ==> s == indexed)
            && (longer == 0 && stored.siblingIndex.None? ==> s == 0.5)
  {
    var a, b := stored.parentChain, live.parentChain;
    var n := if |a| >= |b| then |b| else |a|;
    SameBeyond(a, b, n);
    SameUpTo(a, b, n);
    var parts := StructureParts(stored, live);
    if |parts| == 2 {
      MeanOfTwo(parts[0], parts[1]);
      assert parts == [parts[0], parts[1]];
    } else if |parts| == 1 {
      MeanOfOne(parts[0]);
      assert parts == [parts[0]];
    }
  }

  /** One for a value that is there and that the failed locator did not use. */
  function Held(v: string, k: Key, ignore: set<Key>): nat {
    if v != "" && k !in ignore then 1 else 0
  }

  function Other(fp: Fingerprint, k: Key): string {
    if k in fp.attributes then fp.attributes[k] else ""
  }

  /** How many of the five fields and of the six other attributes the stored element has to compare. */
  function HeldFields(s: Fingerprint, ignore: set<Key>): nat {
    Held(s.id, ID, ignore) + Held(s.name, NAME, ignore) + Held(s.placeholder, PLACEHOLDER, ignore)
    + Held(s.ariaLabel, ARIA_LABEL, ignore) + Held(s.role, ROLE, ignore)
  }

  function HeldOthers(s: Fingerprint, ignore: set<Key>): nat {
    Held(Other(s, DATA_TESTID), DATA_TESTID, ignore) + Held(Other(s, DATA_TEST_ID), DATA_TEST_ID, ignore)
    + Held(Other(s, TYPE), TYPE, ignore) + Held(Other(s, AUTOCOMPLETE), AUTOCOMPLETE, ignore)
    + Held(Other(s, HREF), HREF, ignore) + Held(Other(s, FOR), FOR, ignore)
  }

  /** The same for those that the live element shares. */
  function Both(v: string, w: string, k: Key, ignore: set<Key>): nat {
    if v == w then Held(v, k, ignore) else 0
  }

  function AgreedFields(s: Fingerprint, l: Fingerprint, ignore: set<Key>): nat {
    Both(s.id, l.id, ID, ignore) + Both(s.name, l.name, NAME, ignore)
    + Both(s.placeholder, l.placeholder, PLACEHOLDER, ignore) + Both(s.ariaLabel, l.ariaLabel, ARIA_LABEL, ignore)
    + Both(s.role, l.role, ROLE, ignore)
  }

  function AgreedOthers(s: Fingerprint, l: Fingerprint, ignore: set<Key>): nat {
    Both(Other(s, DATA_TESTID), Other(l, DATA_TESTID), DATA_TESTID, ignore)
    + Both(Other(s, DATA_TEST_ID), Other(l, DATA_TEST_ID), DATA_TEST_ID, ignore)
    + Both(Other(s, TYPE), Other(l, TYPE), TYPE, ignore)
    + Both(Other(s, AUTOCOMPLETE), Other(l, AUTOCOMPLETE), AUTOCOMPLETE, ignore)
    + Both(Other(s, HREF), Other(l, HREF), HREF, ignore) + Both(Other(s, FOR), Other(l, FOR), FOR, ignore)
  }

  function One(s: set<Key>, k: Key): nat { if k in s then 1 else 0 }

  /** Counting one by one, from position n on. */
  function CountFrom(keys: seq<Key>, n: nat, s: set<Key>): nat
    requires n <= |keys|
    decreases |keys| - n
  {
    if n == |keys| then 0 else One(s, keys[n]) + CountFrom(keys, n + 1, s)
  }

  lemma {:induction false} CountedFrom(keys: seq<Key>, n: nat, s: set<Key>)
    requires Distinct(keys) && n <= |keys|
    ensures |Elements(keys) * s| == |Elements(keys[..n]) * s| + CountFrom(keys, n, s)
    decreases |keys| - n
  {
    if n < |keys| {
      CountedFrom(keys, n + 1, s);
      CountStep(keys, n, s);
    } else {
      assert keys[..n] == keys;
    }
  }

  /** A set of keys, counted key by key. */
  lemma KeyByKey(s: set<Key>)
    ensures |s| == (One(s, ID) + One(s, NAME) + One(s, PLACEHOLDER) + One(s, ARIA_LABEL) + One(s, ROLE))
                   + (One(s, DATA_TESTID) + One(s, DATA_TEST_ID) + One(s, TYPE) + One(s, AUTOCOMPLETE)
                      + One(s, HREF) + One(s, FOR))
  {
    FieldsOrStable(ID);
    CountedFrom(FIELDS, 0, s);
    CountedFrom(STABLE, 0, s);
    assert Elements(FIELDS[..0]) * s == {} && Elements(STABLE[..0]) * s == {};
    FiveFields(s);
    SixOthers(s);
    SplitKeys(s);
  }

  lemma FiveFields(s: set<Key>)
    ensures CountFrom(FIELDS, 0, s)
         == One(s, ID) + One(s, NAME) + One(s, PLACEHOLDER) + One(s, ARIA_LABEL) + One(s, ROLE)
  {
    assert CountFrom(FIELDS, 3, s) == One(s, ARIA_LABEL) + One(s, ROLE);
    assert CountFrom(FIELDS, 1, s) == One(s, NAME) + One(s, PLACEHOLDER) + CountFrom(FIELDS, 3, s);
  }

  lemma SixOthers(s: set<Key>)
    ensures CountFrom(STABLE, 0, s)
         == One(s, DATA_TESTID) + One(s, DATA_TEST_ID) + One(s, TYPE) + One(s, AUTOCOMPLETE) + One(s, HREF) + One(s, FOR)
  {
    assert CountFrom(STABLE, 4, s) == One(s, HREF) + One(s, FOR);
    assert CountFrom(STABLE, 2, s) == One(s, TYPE) + One(s, AUTOCOMPLETE) + CountFrom(STABLE, 4, s);
  }

  lemma KeptCount(stored: Fingerprint, ignore: set<Key>)
    ensures |Kept(stored, ignore)| == HeldFields(stored, ignore) + HeldOthers(stored, ignore)
  {
    var kept := Kept(stored, ignore);
    KeyByKey(kept);
    forall k ensures One(kept, k) == Held(Value(stored, k), k, ignore) {
    }
  }

  lemma MatchedCount(stored: Fingerprint, live: Fingerprint, ignore: set<Key>)
    ensures |Matched(stored, live, ignore)| == AgreedFields(stored, live, ignore) + AgreedOthers(stored, live, ignore)
  {
    var matched := Matched(stored, live, ignore);
    KeyByKey(matched);
    forall k ensures One(matched, k) == Both(Value(stored, k), Value(live, k), k, ignore) {
    }
  }

  function Common(a: seq<string>, b: seq<string>): set<string> {
    set c | c in a && c in b
  }

  function Either(a: seq<string>, b: seq<string>): set<string> {
    set c | c in a + b
  }

  lemma CommonClasses(a: seq<string>, b: seq<string>)
    requires a != []
    ensures |Either(a, b)| > 0 && Overlap(a, b) == |Common(a, b)| as real / |Either(a, b)| as real
  {
    assert a[0] in Either(a, b) && a[0] in Elements(a) + Elements(b);
    assert Elements(a) * Elements(b) == Common(a, b);
    assert Elements(a) + Elements(b) == Either(a, b);
  }

  /**
   * Attributes: of the stored element's values the share that the live one has, too.  The class lists count as one more
   * value, by the share of their classes that they have in common; without anything to compare it is one half.
   */
  lemma {:induction false} AttributesByField(lib: Library, stored: Fingerprint, live: Fingerprint, ignore: set<Key>)
    ensures var s := SignalsOf(lib, stored, live, ignore).attribute;
            var n := HeldFields(stored, ignore) + HeldOthers(stored, ignore);
            var m := AgreedFields(stored, live, ignore) + AgreedOthers(stored, live, ignore);
            && (stored.classes == [] && n == 0 ==> s == 0.5)
            && (stored.classes == [] && n > 0 ==> s == m as real / n as real)
            && (stored.classes != [] ==>
                 var common, either := |Common(stored.classes, live.classes)|, |Either(stored.classes, live.classes)|;
                 either > 0 && s == (m as real + common as real / either as real) / (n as real + 1.0))
  {
    KeptCount(stored, ignore);
    MatchedCount(stored, live, ignore);
    if stored.classes != [] {
      CommonClasses(stored.classes, live.classes);
    }
  }

  // ---- The kind of input in terms of the fields ----

  /** Lower case by position: the ASCII capitals change, and nothing else does. */
  lemma {:induction false} LowerAt(s: string, i: nat)
    requires i < |s|
    ensures |Lower(s)| == |s|
    ensures Lower(s)[i] == if 'A' <= s[i] <= 'Z' then (s[i] as int + 32) as char else s[i]
  {
    if i > 0 {
      LowerAt(s[1..], i - 1);
    } else if |s| > 1 {
      LowerAt(s[1..], 0);
    }
  }

  predicate TypedText(kind: string) {
    || kind == "" || kind == "text" || kind == "email" || kind == "password"
    || kind == "search" || kind == "tel" || kind == "url" || kind == "number"
  }

  /** Both are inputs, of the same type or of two that take typed text, or neither is one. */
  predicate SameInput(stored: Fingerprint, live: Fingerprint) {
    var a := Lower(if TYPE in stored.attributes then stored.attributes[TYPE] else "");
    var b := Lower(if TYPE in live.attributes then live.attributes[TYPE] else "");
    if stored.tag == "input" then live.tag == "input" && (a == b || (TypedText(a) && TypedText(b)))
    else live.tag != "input"
  }

  lemma {:induction false} InputByFields(stored: Fingerprint, live: Fingerprint)
    ensures InputKind(stored) == InputKind(live) <==> SameInput(stored, live)
  {
  }
}
