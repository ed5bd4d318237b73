/** Completing the flags of `set_cookie` calls (`_patch_python_cookies`, security/patcher.py). */
module CookieFlags {
  import opened Sequences
  import opened WhiteSpace
  import opened PythonCode
  import opened CallArguments

  /**
   * A `set_cookie` call of a file: the cookie's name if it is a string constant, its keywords and their values as
   * written, where its closing parenthesis stands, and whether its only argument is a generator without parentheses
   * of its own.
   */
  datatype Call = Call(name: Option<string>, keywords: map<string, string>, end: nat, generator: bool)

  /** `ast.parse` and the walk over the tree: None for a SyntaxError. */
  type Parser = string -> Option<seq<Call>>

  function Flags(secure: bool): seq<string> {
    if secure then ["httponly", "secure", "samesite"] else ["httponly", "samesite"]
  }

  function NotIn(keywords: map<string, string>): string -> bool {
    (k: string) => k !in keywords
  }

  function Missing(secure: bool, c: Call): seq<string> {
    Filter(Flags(secure), NotIn(c.keywords))
  }

  function Value(flag: string): string {
    if flag == "samesite" then ['"'] + "lax" + ['"'] else "True"
  }

  /** The keyword and its value as written. */
  function Written(flag: string): string { flag + "=" + Value(flag) }

  /** `", ".join(missing)` */
  function Joined(flags: seq<string>): string {
    if flags == [] then ""
    else if |flags| == 1 then Written(flags[0])
    else Written(flags[0]) + ", " + Joined(flags[1..])
  }

  predicate Matches(names: set<string>, c: Call) {
    "*" in names || (c.name.Some? && c.name.value in names)
  }

  predicate Lacks(names: set<string>, secure: bool, c: Call) {
    Matches(names, c) && Missing(secure, c) != []
  }

  /** What a call should have, unless it says otherwise. */
  function Defaults(secure: bool): map<string, string> {
    map["httponly" := "True", "samesite" := "\"lax\""] + (if secure then map["secure" := "True"] else map[])
  }

  function Completed(names: set<string>, secure: bool, c: Call): Call {
    if Matches(names, c) then c.(keywords := Defaults(secure) + c.keywords) else c
  }

  function Arguments(secure: bool, c: Call): string { Joined(Missing(secure, c)) }

  /** One edit. */
  function Edited(text: string, secure: bool, c: Call): string
    requires c.end <= |text|
  {
    AddArguments(text, c.end, Arguments(secure, c))
  }

  /** The text up to the first such character. */
  function Until(text: string, c: char): (part: string)
    ensures part <= text && c !in part
  {
    if text == "" || text[0] == c then "" else [text[0]] + Until(text[1..], c)
  }

  /** How keyword arguments are read: a name, `=` and a value up to the next comma, which white space follows. */
  function KeywordsIn(arguments: string): map<string, string>
    decreases |arguments|
  {
    var name := Until(arguments, '=');
    if |name| == |arguments| then map[]
    else
      var value := Until(arguments[|name| + 1..], ',');
      var end := |name| + 1 + |value|;
      map[name := value] + KeywordsIn(if end + 2 <= |arguments| then arguments[end + 2..] else "")
  }

  /** The calls of the file after call i got the arguments. */
  function Reread(text: string, secure: bool, calls: seq<Call>, i: nat): seq<Call>
    requires i < |calls| && calls[i].end <= |text|
  {
    var c := calls[i];
    seq(|calls|, j requires 0 <= j < |calls| =>
      calls[j].(end := Moved(text, c.end, Arguments(secure, c), calls[j].end),
                keywords := if j == i then c.keywords + KeywordsIn(Arguments(secure, c)) else calls[j].keywords))
  }

  /**
   * A call that takes more arguments: what stands before its parenthesis ends neither in a comment nor in a
   * backslash, and is no bare generator.
   */
  predicate Extensible(text: string, c: Call)
    requires c.end <= |text|
  {
    !Trails(text, c.end) && !Continues(text, c.end) && !c.generator
  }

  ghost predicate CallsOf(text: string, calls: seq<Call>) {
    && (forall i :: 0 <= i < |calls| ==> Closes(text, calls[i].end))
    && (forall i, j :: 0 <= i < j < |calls| ==> calls[i].end != calls[j].end)
  }

  /**
   * What is taken from Python's grammar: calls close with a parenthesis of the code, and arguments that land in the
   * code extend their call and no other, unless a line continuation or a bare generator makes them a SyntaxError.
   */
  ghost predicate ReadsCalls(parse: Parser) {
    && (forall t :: parse(t).Some? ==> CallsOf(t, parse(t).value))
    && (forall t, secure, i :: parse(t).Some? && 0 <= i < |parse(t).value| ==>
          EditReads(parse, t, secure, parse(t).value, i))
  }

  ghost predicate EditReads(parse: Parser, text: string, secure: bool, calls: seq<Call>, i: nat)
    requires i < |calls|
  {
    calls[i].end <= |text| && Missing(secure, calls[i]) != [] && !Trails(text, calls[i].end) ==>
      parse(Edited(text, secure, calls[i]))
      == if Extensible(text, calls[i]) then Some(Reread(text, secure, calls, i)) else None
  }

  // ---- One edit ----

  /** A keyword: letters only, as far as the lexer can tell. */
  predicate IsWord(flag: string) {
    Plain(flag) && forall i :: 0 <= i < |flag| ==> !Breaks(flag[i]) && flag[i] != '(' && flag[i] != ')'
  }

  lemma ScanStep(s: Lex, c: char, text: string)
    ensures Scan(s, [c] + text) == Scan(Step(s, c), text)
  {
    assert ([c] + text)[1..] == text;
  }

  lemma {:induction false} QuotedWord(q: Quote, word: string)
    requires IsWord(word) && '\\' !in word
    ensures Scan(Short(q, false), word) == Short(q, false)
  {
    if word != [] {
      assert word[0] != '\\' && word[0] in word && forall c :: c in word[1..] ==> c in word;
      QuotedWord(q, word[1..]);
    }
  }

  /** A word in double quotes reads as a whole string. */
  lemma QuotedIsCode(word: string)
    requires IsWord(word) && '\\' !in word && word != []
    ensures Scan(Code, ['"'] + word + ['"']) == Code
  {
    assert ['"'] + word + ['"'] == ['"'] + (word + ['"']);
    ScanStep(Code, '"', word + ['"']);
    assert word[0] in word && word[0] != '"' && word[0] != '\\';
    assert Scan(OneQuote(Double), word) == Scan(Short(Double, false), word[1..]) == Scan(Short(Double, false), word);
    ScanAppend(OneQuote(Double), word, ['"']);
    QuotedWord(Double, word);
    ScanStep(Short(Double, false), '"', []);
    assert ['"'] + [] == ['"'];
  }

  lemma WordIsReadable(word: string)
    requires IsWord(word) && word != [] && !IsSpace(word[|word| - 1]) && word[|word| - 1] != '\\'
    ensures Readable(word)
  {
    PlainIsCode(word);
  }

  lemma QuotedIsReadable(word: string)
    requires IsWord(word) && word != [] && '\\' !in word
    ensures Readable(['"'] + word + ['"'])
  {
    QuotedIsCode(word);
  }

  lemma ValueIsReadable(flag: string)
    ensures Readable(Value(flag))
  {
    if flag == "samesite" {
      QuotedIsReadable("lax");
    } else {
      WordIsReadable("True");
    }
  }

  lemma WrittenIsReadable(flag: string)
    requires IsWord(flag)
    ensures Readable(Written(flag))
  {
    var sign: string := "=";
    assert Written(flag) == flag + (sign + Value(flag));
    ValueIsReadable(flag);
    PlainIsCode(flag);
    PlainIsCode(sign);
    ScanAppend(Code, flag, sign + Value(flag));
    ScanAppend(Code, sign, Value(flag));
  }

  lemma FlagsAreWords(secure: bool, c: Call)
    ensures forall k :: k in Missing(secure, c) ==> IsWord(k)
  {
    MissingFacts(secure, c);
  }

  lemma ListIsReadable(a: string, b: string)
    requires Readable(a) && Readable(b)
    ensures Readable(a + ", " + b)
  {
    var comma: string := ", ";
    PlainIsCode(comma);
    assert a + ", " + b == a + (comma + b);
    ScanAppend(Code, a, comma + b);
    ScanAppend(Code, comma, b);
  }

  lemma {:induction false} JoinedIsReadable(flags: seq<string>)
    requires flags != [] && forall k :: k in flags ==> IsWord(k)
    ensures Readable(Joined(flags))
  {
    WrittenIsReadable(flags[0]);
    if |flags| > 1 {
      JoinedIsReadable(flags[1..]);
      ListIsReadable(Written(flags[0]), Joined(flags[1..]));
    }
  }

  lemma {:induction false} JoinedHasNoParentheses(flags: seq<string>)
    requires forall k :: k in flags ==> IsWord(k)
    ensures '(' !in Joined(flags) && ')' !in Joined(flags)
  {
    if flags != [] {
      assert IsWord(flags[0]) && '(' !in flags[0] && ')' !in flags[0];
      assert '(' !in Value(flags[0]) && ')' !in Value(flags[0]);
      if |flags| > 1 {
        JoinedHasNoParentheses(flags[1..]);
      }
    }
  }

  lemma MissingFacts(secure: bool, c: Call)
    ensures forall k :: k in Missing(secure, c) <==> k in Flags(secure) && k !in c.keywords
  {
    forall k ensures k in Missing(secure, c) <==> k in Flags(secure) && k !in c.keywords {
      FilterMember(Flags(secure), NotIn(c.keywords), k);
    }
  }

  // ---- What the written arguments are read as ----

  lemma {:induction false} UntilThere(a: string, c: char, rest: string)
    requires c !in a
    ensures Until(a + [c] + rest, c) == a && Until(a, c) == a
  {
    if a == "" {
      assert a + [c] + rest == [c] + rest;
    } else {
      var text := a + [c] + rest;
      assert text[0] == a[0] && text[1..] == a[1..] + [c] + rest;
      assert a[0] in a && forall x :: x in a[1..] ==> x in a;
      UntilThere(a[1..], c, rest);
    }
  }

  lemma LastKeywordRead(name: string, value: string)
    requires '=' !in name && ',' !in value
    ensures KeywordsIn(name + "=" + value) == map[name := value]
  {
    var one := name + "=" + value;
    assert one == name + ['='] + value;
    UntilThere(name, '=', value);
    assert one[|name| + 1..] == value;
    UntilThere(value, ',', "");
    assert KeywordsIn("") == map[];
  }

  lemma {:induction false} KeywordRead(name: string, value: string, rest: string)
    requires '=' !in name && ',' !in value
    ensures KeywordsIn(name + "=" + value + ", " + rest) == map[name := value] + KeywordsIn(rest)
  {
    var more, tail := name + "=" + value + ", " + rest, value + [','] + (" " + rest);
    assert more == name + ['='] + tail;
    UntilThere(name, '=', tail);
    assert more[|name| + 1..] == tail;
    UntilThere(value, ',', " " + rest);
    assert more[|name| + 1 + |value| + 2..] == rest;
  }

  /** The flags with their values. */
  function Valued(flags: seq<string>): map<string, string> {
    if flags == [] then map[] else map[flags[0] := Value(flags[0])] + Valued(flags[1..])
  }

  lemma ValueHasNoComma(flag: string)
    ensures ',' !in Value(flag)
  {
  }

  lemma {:induction false} JoinedRead(flags: seq<string>)
    requires forall k :: k in flags ==> '=' !in k
    ensures KeywordsIn(Joined(flags)) == Valued(flags)
  {
    if flags == [] {
      assert KeywordsIn("") == map[];
    } else {
      JoinedRead(flags[1..]);
      ValueHasNoComma(flags[0]);
      assert flags[0] in flags;
      if |flags| == 1 {
        LastKeywordRead(flags[0], Value(flags[0]));
      } else {
        KeywordRead(flags[0], Value(flags[0]), Joined(flags[1..]));
      }
    }
  }

  lemma {:induction false} ValuedAt(flags: seq<string>)
    ensures forall k :: k in Valued(flags) <==> k in flags
    ensures forall k :: k in flags ==> Valued(flags)[k] == Value(k)
  {
    if flags != [] {
      ValuedAt(flags[1..]);
      assert forall k :: k in flags <==> k == flags[0] || k in flags[1..];
    }
  }

  lemma ValuesAreDefaults(secure: bool, k: string)
    requires k in Flags(secure)
    ensures k in Defaults(secure) && Value(k) == Defaults(secure)[k] && '=' !in k
  {
  }

  lemma FlagsAreDefaults(secure: bool)
    ensures forall k :: k in Defaults(secure) <==> k in Flags(secure)
  {
  }

  lemma MissingRead(secure: bool, c: Call)
    ensures KeywordsIn(Arguments(secure, c)) == Valued(Missing(secure, c))
  {
    MissingFacts(secure, c);
    forall k | k in Missing(secure, c) ensures '=' !in k {
      ValuesAreDefaults(secure, k);
    }
    JoinedRead(Missing(secure, c));
  }

  lemma Filled(own: map<string, string>, added: map<string, string>, all: map<string, string>)
    requires forall k :: k in added <==> k in all && k !in own
    requires forall k :: k in added ==> added[k] == all[k]
    ensures own + added == all + own
  {
  }

  lemma MissingAreDefaults(secure: bool, c: Call)
    ensures var added := Valued(Missing(secure, c));
            && (forall k :: k in added <==> k in Defaults(secure) && k !in c.keywords)
            && (forall k :: k in added ==> added[k] == Defaults(secure)[k])
  {
    MissingFacts(secure, c);
    ValuedAt(Missing(secure, c));
    FlagsAreDefaults(secure);
    forall k | k in Missing(secure, c) ensures Value(k) == Defaults(secure)[k] {
      ValuesAreDefaults(secure, k);
    }
  }

  /** So the written text gives a call exactly the defaults it lacked. */
  lemma {:induction false} ArgumentsRead(secure: bool, c: Call)
    ensures c.keywords + KeywordsIn(Arguments(secure, c)) == Defaults(secure) + c.keywords
  {
    MissingRead(secure, c);
    MissingAreDefaults(secure, c);
    Filled(c.keywords, Valued(Missing(secure, c)), Defaults(secure));
  }

  lemma HasMember(s: seq<string>)
    ensures s != [] ==> exists k :: k in s
  {
    if s != [] {
      assert s[0] in s;
    }
  }

  lemma NothingMissing(secure: bool, c: Call)
    requires forall k :: k in Defaults(secure) ==> k in c.keywords
    ensures Missing(secure, c) == []
  {
    MissingFacts(secure, c);
    FlagsAreDefaults(secure);
    HasMember(Missing(secure, c));
  }

  lemma SomethingMissing(secure: bool, c: Call)
    ensures Missing(secure, c) == [] <==> Defaults(secure) + c.keywords == c.keywords
  {
    MissingFacts(secure, c);
    FlagsAreDefaults(secure);
    if Missing(secure, c) != [] {
      assert Missing(secure, c)[0] in Missing(secure, c);
    }
  }

  /** A completed call lacks nothing, keeps what it had, and gains flags only. */
  lemma CompletedLacksNothing(names: set<string>, secure: bool, c: Call)
    ensures !Lacks(names, secure, Completed(names, secure, c))
    ensures var done := Completed(names, secure, c).keywords;
            && c.keywords.Keys <= done.Keys <= c.keywords.Keys + Elements(Flags(secure))
            && forall k :: k in c.keywords ==> done[k] == c.keywords[k]
    ensures Completed(names, secure, c) != c <==> Lacks(names, secure, c)
  {
    FlagsAreDefaults(secure);
    SomethingMissing(secure, c);
    if Matches(names, c) {
      NothingMissing(secure, Completed(names, secure, c));
    }
  }

  lemma ArgumentsAreReadable(secure: bool, c: Call)
    requires Missing(secure, c) != []
    ensures Readable(Arguments(secure, c))
  {
    FlagsAreWords(secure, c);
    JoinedIsReadable(Missing(secure, c));
  }

  lemma ArgumentsHaveNoParentheses(secure: bool, c: Call)
    ensures '(' !in Arguments(secure, c) && ')' !in Arguments(secure, c)
  {
    FlagsAreWords(secure, c);
    JoinedHasNoParentheses(Missing(secure, c));
  }

  /** An edit that lands leaves every call as extensible as it was. */
  lemma EditKeepsExtensible(text: string, secure: bool, calls: seq<Call>, i: nat, j: nat)
    requires CallsOf(text, calls) && i < |calls| && j < |calls|
    requires Extensible(text, calls[i]) && Missing(secure, calls[i]) != []
    ensures var moved := Reread(text, secure, calls, i)[j];
            moved.end < |Edited(text, secure, calls[i])|
            && (Extensible(Edited(text, secure, calls[i]), moved) <==> Extensible(text, calls[j]))
  {
    ArgumentsAreReadable(secure, calls[i]);
    assert Closes(text, calls[i].end) && Closes(text, calls[j].end);
    if i == j {
      ItselfEnds(text, calls[i].end, Arguments(secure, calls[i]));
    } else {
      OthersKeep(text, calls[i].end, Arguments(secure, calls[i]), calls[j].end);
    }
  }

  // ---- The loop ----

  /** SyntaxError, for which the file is dropped, or the text to be saved and the number of edits. */
  datatype Outcome = Patched(text: string, count: nat) | Refused

  function IsLacking(names: set<string>, secure: bool): Call -> bool {
    (c: Call) => Lacks(names, secure, c)
  }

  function Lacking(calls: seq<Call>, names: set<string>, secure: bool): nat {
    |Filter(calls, IsLacking(names, secure))|
  }

  /** The call the loop picks, or their number. */
  function FirstLacking(calls: seq<Call>, names: set<string>, secure: bool): (i: nat)
    ensures i <= |calls| && (i < |calls| ==> Lacks(names, secure, calls[i]))
    ensures forall j :: 0 <= j < i ==> !Lacks(names, secure, calls[j])
  {
    if calls == [] || Lacks(names, secure, calls[0]) then 0 else 1 + FirstLacking(calls[1..], names, secure)
  }

  /** How many calls of a text lack a flag, if it parses. */
  ghost function ToGo(parse: Parser, text: string, names: set<string>, secure: bool): nat {
    if parse(text).None? then 0 else Lacking(parse(text).value, names, secure)
  }

  lemma LackingSame(names: set<string>, secure: bool, c: Call, d: Call)
    requires c.name == d.name && c.keywords == d.keywords
    ensures Lacks(names, secure, c) <==> Lacks(names, secure, d)
    ensures Completed(names, secure, c).keywords == Completed(names, secure, d).keywords
  {
  }

  lemma {:induction false} LackingReread(before: seq<Call>, after: seq<Call>, i: nat, names: set<string>, secure: bool)
    requires |after| == |before| && i < |before|
    requires Lacks(names, secure, before[i]) && !Lacks(names, secure, after[i])
    requires forall j :: 0 <= j < |before| && j != i ==>
      (Lacks(names, secure, after[j]) <==> Lacks(names, secure, before[j]))
    ensures Lacking(after, names, secure) == Lacking(before, names, secure) - 1
  {
    var p := IsLacking(names, secure);
    if i > 0 {
      LackingReread(before[1..], after[1..], i - 1, names, secure);
    } else {
      LackingAgree(before[1..], after[1..], names, secure);
    }
  }

  lemma {:induction false} LackingAgree(a: seq<Call>, b: seq<Call>, names: set<string>, secure: bool)
    requires |a| == |b| && forall j :: 0 <= j < |a| ==> (Lacks(names, secure, a[j]) <==> Lacks(names, secure, b[j]))
    ensures Lacking(a, names, secure) == Lacking(b, names, secure)
  {
    if a != [] {
      LackingAgree(a[1..], b[1..], names, secure);
    }
  }

  lemma RereadIsCompleted(text: string, calls: seq<Call>, i: nat, names: set<string>, secure: bool)
    requires CallsOf(text, calls) && i < |calls| && Lacks(names, secure, calls[i])
    ensures var after := Reread(text, secure, calls, i)[i];
            after.keywords == Completed(names, secure, calls[i]).keywords && !Lacks(names, secure, after)
  {
    ArgumentsRead(secure, calls[i]);
    CompletedLacksNothing(names, secure, calls[i]);
    LackingSame(names, secure, Reread(text, secure, calls, i)[i], Completed(names, secure, calls[i]));
  }

  /** An edit that lands completes one call and leaves the others as they were. */
  lemma TurnCompletesOne(text: string, calls: seq<Call>, i: nat, names: set<string>, secure: bool)
    requires CallsOf(text, calls) && i < |calls| && Lacks(names, secure, calls[i])
    ensures var next := Reread(text, secure, calls, i);
            && next[i].keywords == Completed(names, secure, calls[i]).keywords && !Lacks(names, secure, next[i])
            && (forall j :: 0 <= j < |calls| && j != i ==>
                  && next[j].keywords == calls[j].keywords
                  && (Lacks(names, secure, next[j]) <==> Lacks(names, secure, calls[j])))
            && Lacking(next, names, secure) == Lacking(calls, names, secure) - 1
  {
    var next := Reread(text, secure, calls, i);
    forall j | 0 <= j < |calls| && j != i
      ensures Lacks(names, secure, next[j]) <==> Lacks(names, secure, calls[j])
    {
      LackingSame(names, secure, next[j], calls[j]);
    }
    RereadIsCompleted(text, calls, i, names, secure);
    LackingReread(calls, next, i, names, secure);
  }

  /** What one edit does to the text, whatever is made of it. */
  lemma EditFacts(text: string, secure: bool, c: Call)
    requires Closes(text, c.end) && Missing(secure, c) != []
    ensures var edited := Edited(text, secure, c);
            && BreaksIn(edited) <= BreaksIn(text) && (Trails(text, c.end) ==> BreaksIn(edited) < BreaksIn(text))
            && (if Trails(text, c.end) then LosesMark(Marks(Code, text), Marks(Code, edited))
                else Marks(Code, edited) == Marks(Code, text))
  {
    ArgumentsAreReadable(secure, c);
    ArgumentsHaveNoParentheses(secure, c);
    LinesAreJoined(text, c.end, Arguments(secure, c));
    MarksAfterEdit(text, c.end, Arguments(secure, c));
  }

  /** What an edit that lands is read as: one call less to complete, or nothing. */
  lemma TurnIsRead(parse: Parser, text: string, names: set<string>, secure: bool, i: nat)
    requires ReadsCalls(parse) && parse(text).Some? && i < |parse(text).value|
    requires Lacks(names, secure, parse(text).value[i]) && !Trails(text, parse(text).value[i].end)
    ensures var c, next := parse(text).value[i], parse(Edited(text, secure, parse(text).value[i]));
            && next == (if Extensible(text, c) then Some(Reread(text, secure, parse(text).value, i)) else None)
            && (if next.None? then 0 else Lacking(next.value, names, secure)) < Lacking(parse(text).value, names, secure)
  {
    var calls := parse(text).value;
    assert EditReads(parse, text, secure, calls, i);
    TurnCompletesOne(text, calls, i, names, secure);
  }

  /** Each turn joins two lines, or completes a call, or ends in a SyntaxError. */
  lemma TurnMakesProgress(parse: Parser, text: string, names: set<string>, secure: bool, i: nat)
    requires ReadsCalls(parse) && parse(text).Some? && i < |parse(text).value|
    requires Lacks(names, secure, parse(text).value[i])
    ensures var c := parse(text).value[i];
            var edited := Edited(text, secure, c);
            && BreaksIn(edited) <= BreaksIn(text) && (Trails(text, c.end) ==> BreaksIn(edited) < BreaksIn(text))
            && (!Trails(text, c.end) ==> ToGo(parse, edited, names, secure) < ToGo(parse, text, names, secure))
            && (!Trails(text, c.end) && Extensible(text, c) ==>
                 parse(edited) == Some(Reread(text, secure, parse(text).value, i)))
            && (!Trails(text, c.end) && !Extensible(text, c) ==> parse(edited) == None)
  {
    var c := parse(text).value[i];
    EditFacts(text, secure, c);
    if !Trails(text, c.end) {
      TurnIsRead(parse, text, names, secure, i);
    }
  }

  function Counted(r: Outcome, more: nat): Outcome {
    match r
    case Refused => Refused
    case Patched(text, count) => Patched(text, count + more)
  }

  /** What the loop makes of a text: it goes on with whatever the edited text is read as. */
  ghost function Rewritten(parse: Parser, text: string, names: set<string>, secure: bool): Outcome
    requires ReadsCalls(parse)
    decreases BreaksIn(text), ToGo(parse, text, names, secure)
  {
    if parse(text).None? then Refused
    else
      var calls := parse(text).value;
      var i := FirstLacking(calls, names, secure);
      if i == |calls| then Patched(text, 0)
      else
        TurnMakesProgress(parse, text, names, secure, i);
        Counted(Rewritten(parse, Edited(text, secure, calls[i]), names, secure), 1)
  }

  /** Every call that lacks a flag takes more arguments. */
  ghost predicate AllExtensible(text: string, calls: seq<Call>, names: set<string>, secure: bool)
    requires CallsOf(text, calls)
  {
    forall i :: 0 <= i < |calls| && Lacks(names, secure, calls[i]) ==> Extensible(text, calls[i])
  }

  /** The same calls with what they lacked. */
  ghost predicate SameCompleted(before: seq<Call>, after: seq<Call>, names: set<string>, secure: bool) {
    && |after| == |before|
    && forall j :: 0 <= j < |before| ==>
      && after[j].name == before[j].name && after[j].generator == before[j].generator
      && after[j].keywords == Completed(names, secure, before[j]).keywords
  }

  /** Every call that lacked a flag is completed, counted once, and every parenthesis is read as before. */
  ghost predicate Right(text: string, before: seq<Call>, r: Outcome, parse: Parser, names: set<string>, secure: bool) {
    && r.Patched? && parse(r.text).Some? && SameCompleted(before, parse(r.text).value, names, secure)
    && r.count == Lacking(before, names, secure) && Marks(Code, r.text) == Marks(Code, text)
  }

  /** The text to be saved reads as another program: a parenthesis of the code has gone into a comment. */
  ghost predicate Altered(text: string, r: Outcome) {
    r.Patched? && LosesMark(Marks(Code, text), Marks(Code, r.text))
  }

  /** If what is left after a turn comes out right, so does the whole. */
  lemma RightAfterTurn(text: string, calls: seq<Call>, i: nat, rest: Outcome, parse: Parser, names: set<string>,
                       secure: bool)
    requires CallsOf(text, calls) && i < |calls| && Lacks(names, secure, calls[i]) && !Trails(text, calls[i].end)
    requires Right(Edited(text, secure, calls[i]), Reread(text, secure, calls, i), rest, parse, names, secure)
    ensures Right(text, calls, Counted(rest, 1), parse, names, secure)
  {
    TurnCompletesOne(text, calls, i, names, secure);
    EditFacts(text, secure, calls[i]);
    CompletedLater(calls, Reread(text, secure, calls, i), i, names, secure);
  }

  lemma {:induction false} ExtensibleIsRight(parse: Parser, text: string, names: set<string>, secure: bool)
    requires ReadsCalls(parse) && parse(text).Some? && AllExtensible(text, parse(text).value, names, secure)
    ensures Right(text, parse(text).value, Rewritten(parse, text, names, secure), parse, names, secure)
    decreases BreaksIn(text), ToGo(parse, text, names, secure)
  {
    var calls := parse(text).value;
    var i := FirstLacking(calls, names, secure);
    if i == |calls| {
      NoneLacking(calls, names, secure);
    } else {
      var edited := Edited(text, secure, calls[i]);
      TurnMakesProgress(parse, text, names, secure, i);
      StillAllExtensible(text, calls, i, names, secure);
      ExtensibleIsRight(parse, edited, names, secure);
      RightAfterTurn(text, calls, i, Rewritten(parse, edited, names, secure), parse, names, secure);
    }
  }

  lemma NoneLacking(calls: seq<Call>, names: set<string>, secure: bool)
    requires forall j :: 0 <= j < |calls| ==> !Lacks(names, secure, calls[j])
    ensures SameCompleted(calls, calls, names, secure) && Lacking(calls, names, secure) == 0
  {
    forall j | 0 <= j < |calls| ensures calls[j].keywords == Completed(names, secure, calls[j]).keywords {
      CompletedLacksNothing(names, secure, calls[j]);
    }
    var lacking := Filter(calls, IsLacking(names, secure));
    if lacking != [] {
      FilterMember(calls, IsLacking(names, secure), lacking[0]);
    }
  }

  lemma StillAllExtensible(text: string, calls: seq<Call>, i: nat, names: set<string>, secure: bool)
    requires CallsOf(text, calls) && i < |calls| && Lacks(names, secure, calls[i]) && Extensible(text, calls[i])
    requires CallsOf(Edited(text, secure, calls[i]), Reread(text, secure, calls, i))
    ensures AllExtensible(Edited(text, secure, calls[i]), Reread(text, secure, calls, i), names, secure)
       <==> AllExtensible(text, calls, names, secure)
  {
    TurnCompletesOne(text, calls, i, names, secure);
    forall j | 0 <= j < |calls|
      ensures Extensible(Edited(text, secure, calls[i]), Reread(text, secure, calls, i)[j])
         <==> Extensible(text, calls[j])
    {
      EditKeepsExtensible(text, secure, calls, i, j);
    }
  }

  /** Completing what is left completes all. */
  lemma CompletedLater(calls: seq<Call>, next: seq<Call>, i: nat, names: set<string>, secure: bool)
    requires |next| == |calls| && i < |calls| && next[i].keywords == Completed(names, secure, calls[i]).keywords
    requires forall j :: 0 <= j < |calls| ==>
      next[j].name == calls[j].name && next[j].generator == calls[j].generator
      && (j != i ==> next[j].keywords == calls[j].keywords)
    ensures forall after :: SameCompleted(next, after, names, secure) ==> SameCompleted(calls, after, names, secure)
  {
    CompletedLacksNothing(names, secure, calls[i]);
    LackingSame(names, secure, next[i], Completed(names, secure, calls[i]));
    CompletedLacksNothing(names, secure, next[i]);
    forall j | 0 <= j < |calls|
      ensures Completed(names, secure, next[j]).keywords == Completed(names, secure, calls[j]).keywords
    {
      if j != i {
        LackingSame(names, secure, next[j], calls[j]);
      }
    }
  }

  /** Whatever is edited and however it is read, marks are kept or lost, never gained. */
  lemma {:induction false} MarksOnlyGo(parse: Parser, text: string, names: set<string>, secure: bool)
    requires ReadsCalls(parse) && Rewritten(parse, text, names, secure).Patched?
    ensures var r := Rewritten(parse, text, names, secure);
            Marks(Code, r.text) == Marks(Code, text) || Altered(text, r)
    decreases BreaksIn(text), ToGo(parse, text, names, secure)
  {
    var calls := parse(text).value;
    var i := FirstLacking(calls, names, secure);
    if i < |calls| {
      var edited := Edited(text, secure, calls[i]);
      TurnMakesProgress(parse, text, names, secure, i);
      EditFacts(text, secure, calls[i]);
      MarksOnlyGo(parse, edited, names, secure);
      LosesThrough(Marks(Code, text), Marks(Code, edited), Marks(Code, Rewritten(parse, text, names, secure).text));
    }
  }

  lemma LosesThrough(a: seq<bool>, b: seq<bool>, c: seq<bool>)
    requires b == a || LosesMark(a, b)
    requires c == b || LosesMark(b, c)
    ensures (c == a && b == a) || LosesMark(a, c)
  {
    if b != a && c != b {
      LosesMore(a, b, c);
    }
  }

  /** One turn of the loop, whatever the edited text is read as. */
  lemma TurnIsRewritten(parse: Parser, text: string, names: set<string>, secure: bool, i: nat, count: nat)
    requires ReadsCalls(parse) && parse(text).Some? && i < |parse(text).value|
    requires i == FirstLacking(parse(text).value, names, secure)
    ensures Counted(Rewritten(parse, text, names, secure), count)
         == Counted(Rewritten(parse, Edited(text, secure, parse(text).value[i]), names, secure), count + 1)
  {
  }

  lemma AlteredThrough(text: string, edited: string, r: Outcome)
    requires Marks(Code, edited) == Marks(Code, text) && (r == Refused || Altered(edited, r))
    ensures Counted(r, 1) == Refused || Altered(text, Counted(r, 1))
  {
  }

  /** A call that lacks a flag and takes no more arguments has the file refused or altered. */
  lemma {:induction false} OthersAreRefusedOrAltered(parse: Parser, text: string, names: set<string>, secure: bool)
    requires ReadsCalls(parse) && parse(text).Some? && !AllExtensible(text, parse(text).value, names, secure)
    ensures var r := Rewritten(parse, text, names, secure); r == Refused || Altered(text, r)
    decreases BreaksIn(text), ToGo(parse, text, names, secure)
  {
    var calls := parse(text).value;
    var i := FirstLacking(calls, names, secure);
    var c := calls[i];
    var edited := Edited(text, secure, c);
    TurnMakesProgress(parse, text, names, secure, i);
    TurnIsRewritten(parse, text, names, secure, i, 0);
    if Extensible(text, c) {
      StillAllExtensible(text, calls, i, names, secure);
      OthersAreRefusedOrAltered(parse, edited, names, secure);
      EditFacts(text, secure, c);
      AlteredThrough(text, edited, Rewritten(parse, edited, names, secure));
    } else if Trails(text, c.end) && Rewritten(parse, edited, names, secure).Patched? {
      LossIsAltered(parse, text, names, secure, c);
    }
  }

  /** Once an edit went into a comment, what is saved is another program. */
  lemma LossIsAltered(parse: Parser, text: string, names: set<string>, secure: bool, c: Call)
    requires ReadsCalls(parse) && Closes(text, c.end) && Missing(secure, c) != [] && Trails(text, c.end)
    requires Rewritten(parse, Edited(text, secure, c), names, secure).Patched?
    ensures Altered(text, Rewritten(parse, Edited(text, secure, c), names, secure))
  {
    var edited := Edited(text, secure, c);
    EditFacts(text, secure, c);
    MarksOnlyGo(parse, edited, names, secure);
    LosesThrough(Marks(Code, text), Marks(Code, edited), Marks(Code, Rewritten(parse, edited, names, secure).text));
  }

  /** Right iff each call that lacks a flag takes more arguments; in every other case refused or altered. */
  ghost predicate Judged(parse: Parser, text: string, names: set<string>, secure: bool, r: Outcome)
    requires ReadsCalls(parse) && parse(text).Some?
  {
    var calls := parse(text).value;
    && (Right(text, calls, r, parse, names, secure) <==> AllExtensible(text, calls, names, secure))
    && (AllExtensible(text, calls, names, secure) || r == Refused || Altered(text, r))
  }

  lemma RightIffExtensible(parse: Parser, text: string, names: set<string>, secure: bool)
    requires ReadsCalls(parse) && parse(text).Some?
    ensures Judged(parse, text, names, secure, Rewritten(parse, text, names, secure))
  {
    if AllExtensible(text, parse(text).value, names, secure) {
      ExtensibleIsRight(parse, text, names, secure);
    } else {
      OthersAreRefusedOrAltered(parse, text, names, secure);
    }
  }

  /**
   * In the file's own words: behind a right patch each call that the patch is for has every keyword it had, with its
   * value, and besides `httponly=True`, `samesite="lax"` and, when asked for, `secure=True`, as far as it lacked
   * them; and the other calls are as they were.
   */
  lemma RightWritesFlags(text: string, before: seq<Call>, r: Outcome, parse: Parser, names: set<string>, secure: bool,
                         i: nat)
    requires Right(text, before, r, parse, names, secure) && i < |before|
    ensures |parse(r.text).value| == |before| && parse(r.text).value[i].name == before[i].name
    ensures var was, now := before[i].keywords, parse(r.text).value[i].keywords;
            if "*" in names || (before[i].name.Some? && before[i].name.value in names) then
              && (forall k :: k in was ==> k in now && now[k] == was[k])
              && "httponly" in now && ("httponly" !in was ==> now["httponly"] == "True")
              && "samesite" in now && ("samesite" !in was ==> now["samesite"] == "\"lax\"")
              && (secure ==> "secure" in now && ("secure" !in was ==> now["secure"] == "True"))
              && (forall k :: k in now ==> k in was || k == "httponly" || k == "samesite" || (secure && k == "secure"))
            else now == was
  {
  }

  /** A call without keywords gets them in this order, with a comma and a space between. */
  lemma BareCallIsWritten(secure: bool, c: Call)
    requires c.keywords == map[]
    ensures Arguments(secure, c)
         == if secure then "httponly=True" + ", " + ("secure=True" + ", " + "samesite=\"lax\"")
            else "httponly=True" + ", " + "samesite=\"lax\""
  {
    AllIn(Flags(secure), NotIn(c.keywords));
    JoinedFlags(secure);
  }

  lemma {:induction false} AllIn(s: seq<string>, p: string -> bool)
    requires forall x :: x in s ==> p(x)
    ensures Filter(s, p) == s
  {
    if s != [] {
      AllIn(s[1..], p);
    }
  }

  lemma FlagsWritten()
    ensures Written("httponly") == "httponly=True" && Written("secure") == "secure=True"
    ensures Written("samesite") == "samesite=\"lax\""
  {
  }

  lemma JoinedTwo(a: string, b: string)
    ensures Joined([a, b]) == Written(a) + ", " + Written(b)
  {
    assert [a, b][1..] == [b];
  }

  lemma JoinedThree(a: string, b: string, c: string)
    ensures Joined([a, b, c]) == Written(a) + ", " + (Written(b) + ", " + Written(c))
  {
    assert [a, b, c][1..] == [b, c];
    JoinedTwo(b, c);
  }

  lemma JoinedFlags(secure: bool)
    ensures Joined(Flags(secure))
         == if secure then "httponly=True" + ", " + ("secure=True" + ", " + "samesite=\"lax\"")
            else "httponly=True" + ", " + "samesite=\"lax\""
  {
    FlagsWritten();
    if secure {
      JoinedThree("httponly", "secure", "samesite");
    } else {
      JoinedTwo("httponly", "samesite");
    }
  }

  /** The text on which the loop first edits a call that takes no more arguments, or ends. */
  ghost function Stuck(parse: Parser, text: string, names: set<string>, secure: bool): string
    requires ReadsCalls(parse)
    decreases BreaksIn(text), ToGo(parse, text, names, secure)
  {
    if parse(text).None? then text
    else
      var calls := parse(text).value;
      var i := FirstLacking(calls, names, secure);
      if i == |calls| || !Extensible(text, calls[i]) then text
      else
        TurnMakesProgress(parse, text, names, secure, i);
        Stuck(parse, Edited(text, secure, calls[i]), names, secure)
  }

  /** The call it edits there. */
  ghost predicate StuckAt(parse: Parser, s: string, c: Call, names: set<string>, secure: bool) {
    && parse(s).Some? && Closes(s, c.end) && Lacks(names, secure, c) && !Extensible(s, c)
    && var i := FirstLacking(parse(s).value, names, secure); i < |parse(s).value| && parse(s).value[i] == c
  }

  lemma {:induction false} StuckSomewhere(parse: Parser, text: string, names: set<string>, secure: bool)
    returns (c: Call)
    requires ReadsCalls(parse) && parse(text).Some? && !AllExtensible(text, parse(text).value, names, secure)
    ensures StuckAt(parse, Stuck(parse, text, names, secure), c, names, secure)
    decreases BreaksIn(text), ToGo(parse, text, names, secure)
  {
    var calls := parse(text).value;
    var i := FirstLacking(calls, names, secure);
    c := calls[i];
    if Extensible(text, c) {
      TurnMakesProgress(parse, text, names, secure, i);
      StillAllExtensible(text, calls, i, names, secure);
      c := StuckSomewhere(parse, Edited(text, secure, c), names, secure);
    }
  }

  /** The loop edits a call of the text, and goes on as it should. */
  ghost predicate Goes(parse: Parser, text: string, names: set<string>, secure: bool)
    requires ReadsCalls(parse)
  {
    && parse(text).Some?
    && var calls, i := parse(text).value, FirstLacking(parse(text).value, names, secure);
       i < |calls| && Extensible(text, calls[i])
  }

  lemma StuckHere(parse: Parser, text: string, names: set<string>, secure: bool)
    requires ReadsCalls(parse) && !Goes(parse, text, names, secure)
    ensures Stuck(parse, text, names, secure) == text
  {
  }

  lemma TurnDecides(parse: Parser, text: string, names: set<string>, secure: bool, i: nat)
    requires ReadsCalls(parse) && parse(text).Some? && i < |parse(text).value|
    requires i == FirstLacking(parse(text).value, names, secure)
    ensures Rewritten(parse, text, names, secure) == Refused
       <==> Rewritten(parse, Edited(text, secure, parse(text).value[i]), names, secure) == Refused
  {
    TurnIsRewritten(parse, text, names, secure, i, 0);
  }

  lemma StuckAfterTurn(parse: Parser, text: string, names: set<string>, secure: bool, i: nat)
    requires ReadsCalls(parse) && parse(text).Some? && i < |parse(text).value|
    requires i == FirstLacking(parse(text).value, names, secure) && Extensible(text, parse(text).value[i])
    ensures Stuck(parse, text, names, secure)
         == Stuck(parse, Edited(text, secure, parse(text).value[i]), names, secure)
  {
  }

  /** What decides over the file is what becomes of the text that the loop is stuck at. */
  lemma {:induction false} StuckDecides(parse: Parser, text: string, names: set<string>, secure: bool)
    requires ReadsCalls(parse)
    ensures Rewritten(parse, text, names, secure) == Refused
       <==> Rewritten(parse, Stuck(parse, text, names, secure), names, secure) == Refused
    decreases BreaksIn(text), ToGo(parse, text, names, secure)
  {
    if Goes(parse, text, names, secure) {
      var i := FirstLacking(parse(text).value, names, secure);
      var edited := Edited(text, secure, parse(text).value[i]);
      TurnMakesProgress(parse, text, names, secure, i);
      StuckDecides(parse, edited, names, secure);
      TurnDecides(parse, text, names, secure, i);
      StuckAfterTurn(parse, text, names, secure, i);
    } else {
      StuckHere(parse, text, names, secure);
    }
  }

  /**
   * A file that is not patched right is refused if no comment trails in the call the loop is stuck at, or if the file
   * does not parse after that edit; it is altered if it parses and all its calls take more arguments.
   */
  lemma RefusedOrAltered(parse: Parser, text: string, names: set<string>, secure: bool)
    returns (c: Call)
    requires ReadsCalls(parse) && parse(text).Some? && !AllExtensible(text, parse(text).value, names, secure)
    ensures var s, r := Stuck(parse, text, names, secure), Rewritten(parse, text, names, secure);
            && StuckAt(parse, s, c, names, secure)
            && (!Trails(s, c.end) || parse(Edited(s, secure, c)).None? ==> r == Refused)
            && (var edited := Edited(s, secure, c);
                parse(edited).Some? && AllExtensible(edited, parse(edited).value, names, secure) ==> Altered(text, r))
  {
    c := StuckSomewhere(parse, text, names, secure);
    StuckDecides(parse, text, names, secure);
    var s := Stuck(parse, text, names, secure);
    var edited := Edited(s, secure, c);
    TurnMakesProgress(parse, s, names, secure, FirstLacking(parse(s).value, names, secure));
    if parse(edited).Some? && AllExtensible(edited, parse(edited).value, names, secure) {
      ExtensibleIsRight(parse, edited, names, secure);
    }
    OthersAreRefusedOrAltered(parse, text, names, secure);
  }

  /** The search for the first call that lacks a flag. */
  method FindTarget(calls: seq<Call>, names: set<string>, secure: bool) returns (i: nat)
    ensures i == FirstLacking(calls, names, secure)
  {
    i := 0;
    while i < |calls| && !Lacks(names, secure, calls[i])
      invariant i <= |calls|
      invariant forall j :: 0 <= j < i ==> !Lacks(names, secure, calls[j])
    {
      i := i + 1;
    }
  }

  /** `_patch_python_cookies`: while some call lacks a flag, the first is edited and the file read again. */
  method PatchCookies(parse: Parser, text: string, names: set<string>, secure: bool) returns (r: Outcome)
    requires ReadsCalls(parse)
    ensures r == Rewritten(parse, text, names, secure)
    ensures parse(text).Some? ==> Judged(parse, text, names, secure, r)
  {
    if parse(text).Some? {
      RightIffExtensible(parse, text, names, secure);
    }
    var now, count := text, 0;
    while true
      invariant Rewritten(parse, text, names, secure) == Counted(Rewritten(parse, now, names, secure), count)
      decreases BreaksIn(now), ToGo(parse, now, names, secure)
    {
      if parse(now).None? {
        return Refused;
      }
      var calls := parse(now).value;
      var i := FindTarget(calls, names, secure);
      if i == |calls| {
        return Patched(now, count);
      }
      TurnMakesProgress(parse, now, names, secure, i);
      TurnIsRewritten(parse, now, names, secure, i, count);
      now, count := Edited(now, secure, calls[i]), count + 1;
    }
  }

  lemma OneCall(c: Call, names: set<string>, secure: bool)
    ensures FirstLacking([c], names, secure) == (if Lacks(names, secure, c) then 0 else 1)
    ensures Lacking([c], names, secure) == (if Lacks(names, secure, c) then 1 else 0)
  {
    var p := IsLacking(names, secure);
    assert [c][1..] == [] && Filter([c][1..], p) == [];
  }
}
