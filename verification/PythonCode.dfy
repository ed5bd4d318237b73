/** What Python reads as code: a lexer for comments and strings, character by character. */
module PythonCode {
  import opened WhiteSpace

  /**
   * `OneQuote` and `TwoQuotes` have seen one or two quotes of a string that may turn out empty or triple-quoted;
   * `run` counts the quotes at the end of a triple-quoted string.  Prefixes change nothing here: even in a raw string
   * a backslash keeps the next quote from closing it.
   */
  datatype Quote = Single | Double

  datatype Lex =
    | Code
    | Comment
    | OneQuote(q: Quote)
    | TwoQuotes(q: Quote)
    | Short(q: Quote, escaped: bool)
    | Long(q: Quote, run: nat, escaped: bool)
    | Broken

  function Mark(q: Quote): char { if q == Double then '"' else '\'' }

  predicate Breaks(c: char) { c == '\n' || c == '\r' }

  predicate IsQuote(c: char) { c == '"' || c == '\'' }

  function StepCode(c: char): Lex {
    if c == '#' then Comment else if c == '"' then OneQuote(Double) else if c == '\'' then OneQuote(Single) else Code
  }

  function StepShort(q: Quote, c: char): Lex {
    if c == '\\' then Short(q, true) else if c == Mark(q) then Code else if Breaks(c) then Broken else Short(q, false)
  }

  function Step(s: Lex, c: char): Lex {
    match s
    case Code => StepCode(c)
    case Comment => if Breaks(c) then Code else Comment
    case OneQuote(q) => if c == Mark(q) then TwoQuotes(q) else StepShort(q, c)
    case TwoQuotes(q) => if c == Mark(q) then Long(q, 0, false) else StepCode(c)
    case Short(q, escaped) => if escaped then Short(q, false) else StepShort(q, c)
    case Long(q, run, escaped) =>
      if escaped then Long(q, 0, false)
      else if c == '\\' then Long(q, 0, true)
      else if c != Mark(q) then Long(q, 0, false)
      else if run == 2 then Code
      else Long(q, run + 1, false)
    case Broken => Broken
  }

  function Scan(s: Lex, text: string): Lex
    decreases |text|
  {
    if text == [] then s else Scan(Step(s, text[0]), text[1..])
  }

  /** The characters read as code: neither comment nor inside a string. */
  function CodeOf(s: Lex, text: string): string
    decreases |text|
  {
    if text == [] then []
    else
      var next := Step(s, text[0]);
      (if next == Code then [text[0]] else []) + CodeOf(next, text[1..])
  }

  /** An empty string has just been closed, or there is none open. */
  predicate InCode(s: Lex) { s.Code? || s.TwoQuotes? }

  lemma {:induction false} ScanAppend(s: Lex, a: string, b: string)
    ensures Scan(s, a + b) == Scan(Scan(s, a), b)
    ensures CodeOf(s, a + b) == CodeOf(s, a) + CodeOf(Scan(s, a), b)
    decreases |a|
  {
    if a == [] {
      assert a + b == b;
    } else {
      assert (a + b)[0] == a[0] && (a + b)[1..] == a[1..] + b;
      ScanAppend(Step(s, a[0]), a[1..], b);
    }
  }

  predicate Plain(text: string) {
    forall i :: 0 <= i < |text| ==> text[i] != '#' && !IsQuote(text[i])
  }

  lemma {:induction false} PlainIsCode(text: string)
    requires Plain(text)
    ensures Scan(Code, text) == Code && CodeOf(Code, text) == text
  {
    if text != [] {
      PlainIsCode(text[1..]);
    }
  }

  lemma {:induction false} CommentGoesOn(text: string)
    requires forall i :: 0 <= i < |text| ==> !Breaks(text[i])
    ensures Scan(Comment, text) == Comment && CodeOf(Comment, text) == []
  {
    if text != [] {
      CommentGoesOn(text[1..]);
    }
  }

  /** Behind an empty string, anything but a quote reads on as code. */
  lemma CodeAgain(s: Lex, text: string)
    requires InCode(s) && text != [] && !IsQuote(text[0])
    ensures Scan(s, text) == Scan(Code, text) && CodeOf(s, text) == CodeOf(Code, text)
    ensures Marks(s, text) == Marks(Code, text)
  {
  }

  /** Of each closing parenthesis of the text, whether it is read as code. */
  function Marks(s: Lex, text: string): seq<bool>
    decreases |text|
  {
    if text == [] then []
    else
      var next := Step(s, text[0]);
      (if text[0] == ')' then [next == Code] else []) + Marks(next, text[1..])
  }

  lemma {:induction false} MarksAppend(s: Lex, a: string, b: string)
    ensures Marks(s, a + b) == Marks(s, a) + Marks(Scan(s, a), b)
    decreases |a|
  {
    if a == [] {
      assert a + b == b;
    } else {
      assert (a + b)[0] == a[0] && (a + b)[1..] == a[1..] + b;
      MarksAppend(Step(s, a[0]), a[1..], b);
    }
  }

  lemma {:induction false} NoMarks(s: Lex, text: string)
    requires ')' !in text
    ensures Marks(s, text) == []
    decreases |text|
  {
    if text != [] {
      assert text[0] in text && forall c :: c in text[1..] ==> c in text;
      NoMarks(Step(s, text[0]), text[1..]);
    }
  }

  lemma {:induction false} MarksLength(s: Lex, t: Lex, text: string)
    ensures |Marks(s, text)| == |Marks(t, text)|
    decreases |text|
  {
    if text != [] {
      MarksLength(Step(s, text[0]), Step(t, text[0]), text[1..]);
    }
  }

  /** The readings agree up to some parenthesis that was code and is code no more. */
  ghost predicate LosesMark(before: seq<bool>, now: seq<bool>) {
    |now| == |before| && exists k :: 0 <= k < |now| && now[..k] == before[..k] && before[k] && !now[k]
  }

  lemma LosesMore(a: seq<bool>, b: seq<bool>, c: seq<bool>)
    requires LosesMark(a, b) && LosesMark(b, c)
    ensures LosesMark(a, c)
  {
    var i :| 0 <= i < |b| && b[..i] == a[..i] && a[i] && !b[i];
    var j :| 0 <= j < |c| && c[..j] == b[..j] && b[j] && !c[j];
    var k := if i < j then i else j;
    assert a[..k] == a[..i][..k] == b[..k] == b[..j][..k] == c[..k];
    assert i < j ==> c[..j][i] == b[..j][i];
    assert j < i ==> a[..i][j] == b[..i][j];
  }

  /** White space keeps code code, and only a comment can turn into it. */
  lemma {:induction false} SpaceInCode(s: Lex, text: string)
    requires Blank(text)
    ensures InCode(s) ==> InCode(Scan(s, text)) && Blank(CodeOf(s, text))
    ensures InCode(Scan(s, text)) ==> InCode(s) || s == Comment
    decreases |text|
  {
    if text != [] {
      assert IsSpace(text[0]) && Blank(text[1..]);
      SpaceInCode(Step(s, text[0]), text[1..]);
    }
  }

  // ---- What is written as code, comment or string is read so ----

  /** One character of a string, a backslash with the character it escapes, or one or two quotes and a character. */
  datatype Unit = Char(c: char) | Escape(c: char) | Quotes(twice: bool, c: char)

  function Spelled(q: Quote, u: Unit): string {
    match u
    case Char(c) => [c]
    case Escape(c) => ['\\', c]
    case Quotes(twice, c) => (if twice then [Mark(q), Mark(q)] else [Mark(q)]) + [c]
  }

  function Spelling(q: Quote, units: seq<Unit>): string {
    if units == [] then "" else Spelling(q, units[..|units| - 1]) + Spelled(q, units[|units| - 1])
  }

  /** Within one pair of quotes: no break and no quote but behind a backslash. */
  predicate InShort(q: Quote, u: Unit) {
    !u.Quotes? && (u.Char? ==> u.c != '\\' && u.c != Mark(q) && !Breaks(u.c))
  }

  /** Within triple quotes: up to two quotes in a row, and breaks as they are. */
  predicate InLong(q: Quote, u: Unit) {
    !u.Escape? ==> u.c != '\\' && u.c != Mark(q)
  }

  lemma OneStep(s: Lex, c: char)
    ensures Scan(s, [c]) == Step(s, c) && CodeOf(s, [c]) == if Step(s, c) == Code then [c] else []
  {
    assert [c][1..] == [];
  }

  lemma ReadMore(s: Lex, text: string, c: char)
    ensures Scan(s, text + [c]) == Step(Scan(s, text), c)
    ensures CodeOf(s, text + [c]) == CodeOf(s, text) + if Step(Scan(s, text), c) == Code then [c] else []
  {
    ScanAppend(s, text, [c]);
    OneStep(Scan(s, text), c);
  }

  lemma UnitInShort(q: Quote, text: string, u: Unit)
    requires InShort(q, u) && (Scan(Code, text) == Short(q, false) || Scan(Code, text) == OneQuote(q))
    ensures Scan(Code, text + Spelled(q, u)) == Short(q, false) && CodeOf(Code, text + Spelled(q, u)) == CodeOf(Code, text)
  {
    if u.Char? {
      ReadMore(Code, text, u.c);
    } else {
      ReadMore(Code, text, '\\');
      ReadMore(Code, text + ['\\'], u.c);
      assert text + Spelled(q, u) == text + ['\\'] + [u.c];
    }
  }

  lemma UnitInLong(q: Quote, text: string, u: Unit)
    requires InLong(q, u) && Scan(Code, text) == Long(q, 0, false)
    ensures Scan(Code, text + Spelled(q, u)) == Long(q, 0, false) && CodeOf(Code, text + Spelled(q, u)) == CodeOf(Code, text)
  {
    match u
    case Char(c) =>
      ReadMore(Code, text, c);
    case Escape(c) =>
      ReadMore(Code, text, '\\');
      ReadMore(Code, text + ['\\'], c);
      assert text + Spelled(q, u) == text + ['\\'] + [c];
    case Quotes(twice, c) =>
      QuotesInLong(q, text, twice, c);
  }

  lemma QuotesInLong(q: Quote, text: string, twice: bool, c: char)
    requires c != '\\' && c != Mark(q) && Scan(Code, text) == Long(q, 0, false)
    ensures var after := text + Spelled(q, Quotes(twice, c));
            Scan(Code, after) == Long(q, 0, false) && CodeOf(Code, after) == CodeOf(Code, text)
  {
    var m := Mark(q);
    ReadMore(Code, text, m);
    if twice {
      ReadMore(Code, text + [m], m);
      ReadMore(Code, text + [m] + [m], c);
      assert text + Spelled(q, Quotes(twice, c)) == text + [m] + [m] + [c];
    } else {
      ReadMore(Code, text + [m], c);
      assert text + Spelled(q, Quotes(twice, c)) == text + [m] + [c];
    }
  }

  lemma {:induction false} ShortInside(q: Quote, units: seq<Unit>)
    requires forall u :: u in units ==> InShort(q, u)
    ensures var text := [Mark(q)] + Spelling(q, units);
            Scan(Code, text) == (if units == [] then OneQuote(q) else Short(q, false)) && CodeOf(Code, text) == []
  {
    if units == [] {
      assert [Mark(q)] + Spelling(q, units) == [Mark(q)];
      OneStep(Code, Mark(q));
    } else {
      var init, u := units[..|units| - 1], units[|units| - 1];
      ShortInside(q, init);
      UnitInShort(q, [Mark(q)] + Spelling(q, init), u);
      assert [Mark(q)] + Spelling(q, units) == [Mark(q)] + Spelling(q, init) + Spelled(q, u);
    }
  }

  /** A string in single or double quotes, not empty, is read as a string up to its closing quote, and code goes on. */
  lemma {:induction false} ShortStringRead(q: Quote, units: seq<Unit>)
    requires units != [] && forall u :: u in units ==> InShort(q, u)
    ensures var text := [Mark(q)] + Spelling(q, units) + [Mark(q)];
            Scan(Code, text) == Code && CodeOf(Code, text) == [Mark(q)]
  {
    ShortInside(q, units);
    ReadMore(Code, [Mark(q)] + Spelling(q, units), Mark(q));
  }

  lemma ThreeQuotes(q: Quote)
    ensures Scan(Code, [Mark(q), Mark(q), Mark(q)]) == Long(q, 0, false) && CodeOf(Code, [Mark(q), Mark(q), Mark(q)]) == []
  {
    var m := Mark(q);
    OneStep(Code, m);
    ReadMore(Code, [m], m);
    ReadMore(Code, [m] + [m], m);
    assert [m, m, m] == [m] + [m] + [m];
  }

  lemma {:induction false} LongInside(q: Quote, start: string, units: seq<Unit>)
    requires Scan(Code, start) == Long(q, 0, false) && forall u :: u in units ==> InLong(q, u)
    ensures Scan(Code, start + Spelling(q, units)) == Long(q, 0, false)
    ensures CodeOf(Code, start + Spelling(q, units)) == CodeOf(Code, start)
  {
    if units == [] {
      assert start + Spelling(q, units) == start;
    } else {
      var init, u := units[..|units| - 1], units[|units| - 1];
      var before := start + Spelling(q, init);
      LongInside(q, start, init);
      UnitInLong(q, before, u);
      assert start + Spelling(q, units) == before + Spelled(q, u);
    }
  }

  /** A string in triple quotes is read as a string up to its third closing quote, and code goes on. */
  lemma {:induction false} LongStringRead(q: Quote, units: seq<Unit>)
    requires forall u :: u in units ==> InLong(q, u)
    ensures var text := [Mark(q), Mark(q), Mark(q)] + Spelling(q, units) + [Mark(q)] + [Mark(q)] + [Mark(q)];
            Scan(Code, text) == Code && CodeOf(Code, text) == [Mark(q)]
  {
    var m := Mark(q);
    var text := [m, m, m] + Spelling(q, units);
    ThreeQuotes(q);
    LongInside(q, [m, m, m], units);
    ReadMore(Code, text, m);
    ReadMore(Code, text + [m], m);
    ReadMore(Code, text + [m] + [m], m);
  }

  /** A comment is read as one up to its line's end, and an empty string as nothing. */
  lemma {:induction false} CommentRead(body: string, c: char)
    requires (forall b :: b in body ==> !Breaks(b)) && Breaks(c)
    ensures Scan(Code, ['#'] + body) == Comment && CodeOf(Code, ['#'] + body) == []
    ensures Scan(Code, ['#'] + body + [c]) == Code && CodeOf(Code, ['#'] + body + [c]) == [c]
  {
    if body == [] {
      OneStep(Code, '#');
      assert ['#'] + body == ['#'];
    } else {
      var init, b := body[..|body| - 1], body[|body| - 1];
      CommentRead(init, c);
      ReadMore(Code, ['#'] + init, b);
      assert ['#'] + body == ['#'] + init + [b] && b in body;
    }
    ReadMore(Code, ['#'] + body, c);
  }

  lemma EmptyStringRead(q: Quote, c: char)
    requires c != Mark(q)
    ensures Scan(Code, [Mark(q)] + [Mark(q)] + [c]) == Scan(Code, [c])
  {
    OneStep(Code, Mark(q));
    ReadMore(Code, [Mark(q)], Mark(q));
    ReadMore(Code, [Mark(q)] + [Mark(q)], c);
    OneStep(Code, c);
  }
}

/** Adding arguments to a call in a source file (security/patcher.py). */
module CallArguments {
  import opened WhiteSpace
  import opened PythonCode

  /** What is left of the text before the closing parenthesis that stands at `end`. */
  function Before(text: string, end: nat): (before: string)
    requires end <= |text|
    ensures before <= text[..end]
  {
    RStrip(text[..end])
  }

  function Separator(before: string): string {
    if before != [] && (before[|before| - 1] == ',' || before[|before| - 1] == '(') then " " else ", "
  }

  /** Write `arguments` in front of the closing parenthesis that stands at `end`. */
  function AddArguments(text: string, end: nat, arguments: string): string
    requires end <= |text|
  {
    var before := Before(text, end);
    before + Separator(before) + arguments + text[end..]
  }

  /** Where that parenthesis stands afterwards. */
  function NewEnd(text: string, end: nat, arguments: string): nat
    requires end <= |text|
  {
    |Before(text, end)| + |Separator(Before(text, end))| + |arguments|
  }

  /**
   * Adding arguments loses nothing but the white space in front of the parenthesis, keeps everything from
   * it on, and puts a comma between exactly when the call does not end in one and is not empty.
   */
  lemma AddArgumentsKeepsText(text: string, end: nat, arguments: string) returns (kept: nat)
    requires end <= |text|
    ensures kept <= end && Blank(text[kept..end]) && Before(text, end) == text[..kept]
    ensures kept > 0 && (text[kept - 1] == ',' || text[kept - 1] == '(')
      ==> AddArguments(text, end, arguments) == text[..kept] + " " + arguments + text[end..]
    ensures !(kept > 0 && (text[kept - 1] == ',' || text[kept - 1] == '('))
      ==> AddArguments(text, end, arguments) == text[..kept] + ", " + arguments + text[end..]
    ensures kept > 0 ==> !IsSpace(text[kept - 1])
  {
    RStripCuts(text[..end]);
    kept := |Before(text, end)|;
    assert Before(text, end) == text[..end][..kept] == text[..kept];
    assert text[..end][kept..] == text[kept..end];
  }

  /** The text in front of the parenthesis ends in a comment: its last line holds a `#` outside any string. */
  predicate Trails(text: string, end: nat)
    requires end <= |text|
  {
    Scan(Code, Before(text, end)) == Comment
  }

  /** It ends in a backslash that continues the line. */
  predicate Continues(text: string, end: nat)
    requires end <= |text|
  {
    var before := Before(text, end);
    before != [] && before[|before| - 1] == '\\'
  }

  /** A parenthesis that Python reads as code stands at `end`. */
  predicate Closes(text: string, end: nat) {
    end < |text| && text[end] == ')' && InCode(Scan(Code, text[..end]))
  }

  /** Arguments that read as whole code on one line. */
  predicate Readable(arguments: string) {
    && Scan(Code, arguments) == Code && (forall i :: 0 <= i < |arguments| ==> !Breaks(arguments[i]))
    && arguments != [] && !IsSpace(arguments[|arguments| - 1]) && arguments[|arguments| - 1] != '\\'
  }

  lemma SplitAtEnd(text: string, end: nat)
    requires Closes(text, end)
    ensures text == text[..end] + text[end..]
    ensures InCode(Scan(Code, Before(text, end))) || Trails(text, end)
    ensures !Trails(text, end) ==>
      Scan(Code, text[..end]) == Scan(Scan(Code, Before(text, end)), text[|Before(text, end)|..end])
  {
    var kept := AddArgumentsKeepsText(text, end, "");
    var before := Before(text, end);
    assert text[..end] == before + text[kept..end];
    ScanAppend(Code, before, text[kept..end]);
    SpaceInCode(Scan(Code, before), text[kept..end]);
  }

  /** The text with the arguments written, up to the parenthesis. */
  function Front(text: string, end: nat, arguments: string): string
    requires end <= |text|
  {
    Before(text, end) + Separator(Before(text, end)) + arguments
  }

  lemma FrontReads(text: string, end: nat, arguments: string)
    requires Closes(text, end) && Readable(arguments)
    ensures Trails(text, end) ==>
      Scan(Code, Front(text, end, arguments)) == Comment
      && CodeOf(Code, Front(text, end, arguments)) == CodeOf(Code, Before(text, end))
    ensures !Trails(text, end) ==>
      Scan(Code, Front(text, end, arguments)) == Code
      && CodeOf(Code, Front(text, end, arguments))
      == CodeOf(Code, Before(text, end)) + Separator(Before(text, end)) + CodeOf(Code, arguments)
  {
    var before := Before(text, end);
    var added := Separator(before) + arguments;
    assert Front(text, end, arguments) == before + added;
    SplitAtEnd(text, end);
    ScanAppend(Code, before, added);
    if Trails(text, end) {
      CommentGoesOn(added);
    } else {
      AddedIsCode(Scan(Code, before), before, arguments);
    }
  }

  /**
   * Exactly when no comment trails, the new arguments and the parenthesis behind them are read as code, and
   * the rest of the file as before.  Otherwise they and the rest of their line are read as part of the comment.
   */
  lemma {:induction false} LandsInCode(text: string, end: nat, arguments: string)
    requires Closes(text, end) && Readable(arguments)
    ensures var edited, front := AddArguments(text, end, arguments), Front(text, end, arguments);
            && edited == front + text[end..] && |front| == NewEnd(text, end, arguments)
            && (Scan(Code, front) == Code <==> !Trails(text, end))
            && (Scan(Code, front) == Comment <==> Trails(text, end))
            && CodeOf(Code, edited) == CodeOf(Code, front) + CodeOf(Scan(Code, front), text[end..])
            && CodeOf(Code, front) == CodeOf(Code, Before(text, end))
                 + (if Trails(text, end) then "" else Separator(Before(text, end)) + CodeOf(Code, arguments))
  {
    FrontReads(text, end, arguments);
    ScanAppend(Code, Front(text, end, arguments), text[end..]);
  }

  lemma AddedIsCode(s: Lex, before: string, arguments: string)
    requires InCode(s) && Readable(arguments)
    ensures var added := Separator(before) + arguments;
            Scan(s, added) == Code && CodeOf(s, added) == Separator(before) + CodeOf(Code, arguments)
  {
    var separator := Separator(before);
    assert Plain(separator) && separator != [];
    CodeAgain(s, separator);
    PlainIsCode(separator);
    ScanAppend(s, separator, arguments);
  }

  // ---- The other calls of the file ----

  /** Where a parenthesis of the file stands after arguments were added at `end`. */
  function Moved(text: string, end: nat, arguments: string, other: nat): nat
    requires end <= |text|
  {
    if other < end then other else NewEnd(text, end, arguments) + (other - end)
  }

  lemma {:induction false} RStripAppend(a: string, b: string)
    requires b != [] && !IsSpace(b[0])
    ensures RStrip(a + b) == a + RStrip(b) && RStrip(b) != []
    decreases |b|
  {
    var n := |b| - 1;
    if IsSpace(b[n]) {
      assert (a + b)[..|a + b| - 1] == a + b[..n];
      RStripAppend(a, b[..n]);
    }
  }

  /** Where the text ends up before another parenthesis further on. */
  lemma BeforeLater(text: string, end: nat, arguments: string, other: nat)
    requires Closes(text, end) && Closes(text, other) && end < other
    ensures var w := RStrip(text[end..other]); var front := Front(text, end, arguments);
            && w != [] && w[0] == ')'
            && Before(text, other) == text[..end] + w
            && Moved(text, end, arguments, other) < |AddArguments(text, end, arguments)|
            && AddArguments(text, end, arguments)[Moved(text, end, arguments, other)] == ')'
            && Before(AddArguments(text, end, arguments), Moved(text, end, arguments, other)) == front + w
  {
    var middle := text[end..other];
    var edited := AddArguments(text, end, arguments);
    var front := Front(text, end, arguments);
    assert edited == front + text[end..];
    assert middle[0] == ')' && !IsSpace(')');
    assert text[..other] == text[..end] + middle;
    RStripAppend(text[..end], middle);
    assert edited[..Moved(text, end, arguments, other)] == front + middle;
    RStripAppend(front, middle);
    RStripCuts(middle);
  }

  lemma SpaceAt(text: string, a: nat, b: nat, i: nat)
    requires a <= i < b <= |text| && Blank(text[a..b])
    ensures IsSpace(text[i])
  {
    assert text[i] == text[a..b][i - a];
  }

  /** Behind two texts that end in code, what starts with a parenthesis is read alike. */
  lemma ReadsAlike(a: string, b: string, w: string)
    requires InCode(Scan(Code, a)) && Scan(Code, b) == Code && w != [] && w[0] == ')'
    ensures Scan(Code, a + w) == Scan(Code, b + w)
  {
    ScanAppend(Code, a, w);
    ScanAppend(Code, b, w);
    CodeAgain(Scan(Code, a), w);
  }

  /** A parenthesis further on. */
  lemma {:induction false} LaterKeeps(text: string, end: nat, arguments: string, other: nat)
    requires Closes(text, end) && Closes(text, other) && end < other && Readable(arguments) && !Trails(text, end)
    ensures var edited, moved := AddArguments(text, end, arguments), Moved(text, end, arguments, other);
            && moved < |edited| && edited[moved] == ')'
            && Trails(edited, moved) == Trails(text, other) && Continues(edited, moved) == Continues(text, other)
  {
    FrontReads(text, end, arguments);
    BeforeLater(text, end, arguments, other);
    ReadsAlike(text[..end], Front(text, end, arguments), RStrip(text[end..other]));
  }

  /** Adding arguments to one call changes neither how another one ends, nor that its parenthesis is code. */
  lemma {:induction false} OthersKeep(text: string, end: nat, arguments: string, other: nat)
    requires Closes(text, end) && Closes(text, other) && end != other && Readable(arguments) && !Trails(text, end)
    ensures var edited, moved := AddArguments(text, end, arguments), Moved(text, end, arguments, other);
            && moved < |edited| && edited[moved] == ')'
            && Trails(edited, moved) == Trails(text, other) && Continues(edited, moved) == Continues(text, other)
  {
    var edited := AddArguments(text, end, arguments);
    if other < end {
      var kept := AddArgumentsKeepsText(text, end, arguments);
      if kept <= other {
        SpaceAt(text, kept, end, other);
      }
      assert edited[..other] == text[..other] && edited[other] == text[other];
    } else {
      LaterKeeps(text, end, arguments, other);
    }
  }

  /** And the call itself can be extended again. */
  lemma {:induction false} ItselfEnds(text: string, end: nat, arguments: string)
    requires Closes(text, end) && Readable(arguments) && !Trails(text, end)
    ensures var edited, moved := AddArguments(text, end, arguments), Moved(text, end, arguments, end);
            && moved < |edited| && edited[moved] == ')' && !Trails(edited, moved) && !Continues(edited, moved)
  {
    LandsInCode(text, end, arguments);
    var edited, moved := AddArguments(text, end, arguments), NewEnd(text, end, arguments);
    var front := Front(text, end, arguments);
    assert edited == front + text[end..];
    assert front == Before(text, end) + Separator(Before(text, end)) + arguments;
    assert front[|front| - 1] == arguments[|arguments| - 1];
    assert RStrip(front) == front;
  }

  // ---- What an edit does to the lines and to the other parentheses ----

  function BreaksIn(text: string): nat { multiset(text)['\n'] + multiset(text)['\r'] }

  lemma NoBreaks(text: string)
    requires forall i :: 0 <= i < |text| ==> !Breaks(text[i])
    ensures BreaksIn(text) == 0
  {
    assert '\n' !in text && '\r' !in text;
  }

  /** A comment that is left behind ends with its line. */
  lemma CommentEnds(space: string)
    requires Scan(Comment, space) != Comment
    ensures BreaksIn(space) > 0
  {
    if forall i :: 0 <= i < |space| ==> !Breaks(space[i]) {
      CommentGoesOn(space);
    } else {
      var i :| 0 <= i < |space| && Breaks(space[i]);
      assert space[i] in space;
    }
  }

  /** No edit adds a line, and one that goes into a comment joins two. */
  lemma LinesAreJoined(text: string, end: nat, arguments: string)
    requires Closes(text, end) && Readable(arguments)
    ensures BreaksIn(AddArguments(text, end, arguments)) <= BreaksIn(text)
    ensures Trails(text, end) ==> BreaksIn(AddArguments(text, end, arguments)) < BreaksIn(text)
  {
    var kept := AddArgumentsKeepsText(text, end, arguments);
    var before, space, tail := Before(text, end), text[kept..end], text[end..];
    assert text == before + space + tail;
    NoBreaks(Separator(before));
    NoBreaks(arguments);
    assert text[..end] == before + space;
    ScanAppend(Code, before, space);
    if Trails(text, end) {
      CommentEnds(space);
    }
  }

  lemma MarksOfPieces(before: string, middle: string, tail: string)
    requires ')' !in middle
    ensures Marks(Code, before + middle + tail) == Marks(Code, before) + Marks(Scan(Code, before + middle), tail)
  {
    MarksAppend(Code, before, middle);
    MarksAppend(Code, before + middle, tail);
    NoMarks(Scan(Code, before), middle);
  }

  lemma MarksUpToEnd(text: string, end: nat)
    requires Closes(text, end)
    ensures Marks(Code, text) == Marks(Code, Before(text, end)) + Marks(Code, text[end..])
  {
    var kept := AddArgumentsKeepsText(text, end, "");
    var before, space := Before(text, end), text[kept..end];
    assert text[..end] == before + space && text == before + space + text[end..];
    assert forall i :: 0 <= i < |space| ==> IsSpace(space[i]);
    MarksOfPieces(before, space, text[end..]);
    CodeAgain(Scan(Code, text[..end]), text[end..]);
  }

  lemma MarksOfEdited(text: string, end: nat, arguments: string)
    requires Closes(text, end) && Readable(arguments) && ')' !in arguments
    ensures Marks(Code, AddArguments(text, end, arguments))
         == Marks(Code, Before(text, end)) + Marks(if Trails(text, end) then Comment else Code, text[end..])
  {
    var before := Before(text, end);
    var added := Separator(before) + arguments;
    assert Front(text, end, arguments) == before + added;
    assert AddArguments(text, end, arguments) == before + added + text[end..];
    FrontReads(text, end, arguments);
    MarksOfPieces(before, added, text[end..]);
  }

  lemma FirstMarkLost(m: seq<bool>, tail: string)
    requires tail != [] && tail[0] == ')'
    ensures LosesMark(m + Marks(Code, tail), m + Marks(Comment, tail))
  {
    MarksLength(Code, Comment, tail);
    var a, b := m + Marks(Code, tail), m + Marks(Comment, tail);
    assert a[..|m|] == m == b[..|m|] && a[|m|] && !b[|m|];
  }

  /** Up to the parenthesis an edit changes no mark; behind it all are kept, or the first is lost. */
  lemma MarksAfterEdit(text: string, end: nat, arguments: string)
    requires Closes(text, end) && Readable(arguments) && ')' !in arguments
    ensures var before, after := Marks(Code, text), Marks(Code, AddArguments(text, end, arguments));
            if Trails(text, end) then LosesMark(before, after) else after == before
  {
    MarksUpToEnd(text, end);
    MarksOfEdited(text, end, arguments);
    FirstMarkLost(Marks(Code, Before(text, end)), text[end..]);
  }

  // ---- What Python makes of arguments lost in a comment ----

  /** As many parentheses open as close, as in any file that parses. */
  predicate Balanced(code: string) { Opens(code) == 0 }

  /** How many parentheses open more than close. */
  function Opens(code: string): int { multiset(code)['('] as int - multiset(code)[')'] as int }

  predicate BalancedText(text: string) { Balanced(CodeOf(Code, text)) }

  lemma BlankHasNone(s: string)
    requires Blank(s)
    ensures multiset(s)['('] == 0 && multiset(s)[')'] == 0
  {
    assert '(' !in s && ')' !in s;
  }

  /** The rest of the closing line, `n` characters from the parenthesis on, leaves no string open. */
  predicate ClosingLine(text: string, end: nat, n: nat) {
    && end + n <= |text| && 0 < n && (forall i :: end <= i < end + n ==> !Breaks(text[i]))
    && (end + n < |text| ==> Breaks(text[end + n]))
    && (InCode(Scan(Code, text[end..end + n])) || Scan(Code, text[end..end + n]) == Comment)
  }

  /** The code of the file, from the call's parenthesis on: its line and then the rest. */
  lemma CodeFromEnd(text: string, end: nat, n: nat)
    requires Closes(text, end) && ClosingLine(text, end, n)
    ensures var line, rest := CodeOf(Code, text[end..end + n]), CodeOf(Comment, text[end + n..]);
            CodeOf(Code, text[end..]) == line + rest && CodeOf(Comment, text[end..]) == rest
  {
    var line, tail := text[end..end + n], text[end + n..];
    assert text[end..] == line + tail && line[0] == ')';
    ScanAppend(Code, line, tail);
    ScanAppend(Comment, line, tail);
    CommentGoesOn(line);
    SameTail(Scan(Code, line), tail);
  }

  /** And up to it: nothing but white space is dropped. */
  lemma CodeUpToEnd(text: string, end: nat) returns (space: string)
    requires Closes(text, end)
    ensures Blank(space) && CodeOf(Code, text) == CodeOf(Code, Before(text, end)) + space + CodeOf(Code, text[end..])
  {
    var kept := AddArgumentsKeepsText(text, end, "");
    var before := Before(text, end);
    assert text[..end] == before + text[kept..end] && text == text[..end] + text[end..];
    ScanAppend(Code, before, text[kept..end]);
    ScanAppend(Code, text[..end], text[end..]);
    CodeAgain(Scan(Code, text[..end]), text[end..]);
    SplitAtEnd(text, end);
    SpaceCode(Scan(Code, before), text[kept..end]);
    space := CodeOf(Scan(Code, before), text[kept..end]);
  }

  lemma {:induction false} CodeIsText(s: Lex, text: string, c: char)
    requires c !in text
    ensures c !in CodeOf(s, text)
    decreases |text|
  {
    if text != [] {
      assert text[0] in text && forall d :: d in text[1..] ==> d in text;
      CodeIsText(Step(s, text[0]), text[1..], c);
    }
  }

  lemma SameBalance(before: string, added: string, space: string, tail: string)
    requires Blank(space) && '(' !in added && ')' !in added
    ensures Balanced(before + added + tail) <==> Balanced(before + space + tail)
  {
    BlankHasNone(space);
  }

  /** An edit that lands leaves the parentheses alone. */
  lemma LandedEditBalances(text: string, end: nat, arguments: string)
    requires Closes(text, end) && Readable(arguments) && !Trails(text, end)
    requires '(' !in arguments && ')' !in arguments
    ensures BalancedText(AddArguments(text, end, arguments)) <==> BalancedText(text)
  {
    LandsInCode(text, end, arguments);
    var space := CodeUpToEnd(text, end);
    var before := Before(text, end);
    var added := Separator(before) + CodeOf(Code, arguments);
    CodeIsText(Code, arguments, '(');
    CodeIsText(Code, arguments, ')');
    assert CodeOf(Code, before) + added == CodeOf(Code, before) + Separator(before) + CodeOf(Code, arguments);
    SameBalance(CodeOf(Code, before), added, space, CodeOf(Code, text[end..]));
  }

  lemma BalancedWithout(before: string, space: string, line: string, rest: string)
    requires Blank(space) && Balanced(before + space + (line + rest))
    ensures Balanced(before + rest) <==> Balanced(line)
  {
    BlankHasNone(space);
  }

  /** The code before and after an edit that is lost: white space aside, the closing line is what is missing. */
  lemma LostLineCode(text: string, end: nat, arguments: string, n: nat) returns (space: string)
    requires Closes(text, end) && Readable(arguments) && Trails(text, end) && ClosingLine(text, end, n)
    ensures var before, rest := CodeOf(Code, Before(text, end)), CodeOf(Comment, text[end + n..]);
            && Blank(space) && CodeOf(Code, text) == before + space + (CodeOf(Code, text[end..end + n]) + rest)
            && CodeOf(Code, AddArguments(text, end, arguments)) == before + rest
  {
    LandsInCode(text, end, arguments);
    CodeFromEnd(text, end, n);
    space := CodeUpToEnd(text, end);
  }

  /**
   * Lost arguments take the rest of the closing line with them: what was balanced still is, iff that line opens as
   * many parentheses as it closes.
   */
  lemma LostLineBalances(text: string, end: nat, arguments: string, n: nat)
    requires Closes(text, end) && Readable(arguments) && Trails(text, end) && ClosingLine(text, end, n)
    requires BalancedText(text)
    ensures BalancedText(AddArguments(text, end, arguments)) <==> BalancedText(text[end..end + n])
  {
    var space := LostLineCode(text, end, arguments, n);
    BalancedWithout(CodeOf(Code, Before(text, end)), space, CodeOf(Code, text[end..end + n]),
                    CodeOf(Comment, text[end + n..]));
  }

  lemma {:induction false} SpaceCode(s: Lex, space: string)
    requires Blank(space) && (InCode(s) || s == Comment)
    ensures Blank(CodeOf(s, space))
    decreases |space|
  {
    if space != [] {
      assert IsSpace(space[0]) && Blank(space[1..]);
      SpaceCode(Step(s, space[0]), space[1..]);
    }
  }

  lemma SameTail(s: Lex, tail: string)
    requires (InCode(s) || s == Comment) && (tail == [] || Breaks(tail[0]))
    ensures CodeOf(s, tail) == CodeOf(Comment, tail)
  {
  }
}
