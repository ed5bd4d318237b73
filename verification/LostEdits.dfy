/**
 * What becomes of a file when an edit for a `set_cookie` call goes into a comment (security/patcher.py): refused, or
 * saved as another program.
 */
module LostEdits {
  import opened Sequences
  import opened WhiteSpace
  import opened PythonCode
  import opened CallArguments
  import opened CookieFlags

  // ---- A trailing comment ----

  /** As `ast.parse` does, the parser refuses what does not balance. */
  ghost predicate NeedsBalance(parse: Parser) {
    forall t :: parse(t).Some? ==> BalancedText(t)
  }

  lemma LostEditUnbalances(text: string, secure: bool, c: Call, n: nat)
    requires BalancedText(text) && Closes(text, c.end) && Readable(Arguments(secure, c))
    requires Trails(text, c.end) && ClosingLine(text, c.end, n) && !BalancedText(text[c.end..c.end + n])
    ensures !BalancedText(Edited(text, secure, c))
  {
    LostLineBalances(text, c.end, Arguments(secure, c), n);
  }

  /** A parser that refuses what does not balance refuses a lost edit whose closing line does not balance. */
  lemma LostEditIsRefused(parse: Parser, text: string, secure: bool, c: Call, n: nat)
    requires NeedsBalance(parse) && parse(text).Some? && Closes(text, c.end) && Missing(secure, c) != []
    requires Trails(text, c.end) && ClosingLine(text, c.end, n) && !BalancedText(text[c.end..c.end + n])
    ensures parse(Edited(text, secure, c)) == None
  {
    ArgumentsAreReadable(secure, c);
    LostEditUnbalances(text, secure, c, n);
  }

  /** So a file is refused if the loop gets stuck at such a line. */
  lemma UnevenIsRefused(parse: Parser, text: string, names: set<string>, secure: bool, c: Call, n: nat)
    requires ReadsCalls(parse) && NeedsBalance(parse) && parse(text).Some?
    requires StuckAt(parse, Stuck(parse, text, names, secure), c, names, secure)
    requires var s := Stuck(parse, text, names, secure);
             Trails(s, c.end) && ClosingLine(s, c.end, n) && !BalancedText(s[c.end..c.end + n])
    ensures Rewritten(parse, text, names, secure) == Refused
  {
    var s := Stuck(parse, text, names, secure);
    LostEditIsRefused(parse, s, secure, c, n);
    TurnIsRewritten(parse, s, names, secure, FirstLacking(parse(s).value, names, secure), 0);
    StuckDecides(parse, text, names, secure);
  }

  /** A call written over several lines, with a comment behind its last argument. */
  function Commented(open: string, comment: string): string { open + comment + "\n" + ")" }

  predicate IsComment(comment: string) {
    && comment != [] && comment[0] == '#' && !IsSpace(comment[|comment| - 1])
    && forall i :: 0 <= i < |comment| ==> !Breaks(comment[i])
  }

  lemma LoneParenthesis(text: string)
    requires text == [')']
    ensures Scan(Code, text) == Code && !BalancedText(text)
  {
    assert CodeOf(Code, text) == text;
  }

  lemma LastLine(text: string, end: nat)
    requires end + 1 == |text| && text[end] == ')'
    ensures ClosingLine(text, end, 1) && !BalancedText(text[end..end + 1])
  {
    LoneParenthesis(text[end..end + 1]);
  }

  lemma CommentReads(open: string, comment: string, line: string)
    requires InCode(Scan(Code, open)) && IsComment(comment) && line == ['\n']
    ensures Scan(Code, open + comment) == Comment && Scan(Code, open + comment + line) == Code
  {
    ScanAppend(Code, open, comment);
    CodeAgain(Scan(Code, open), comment);
    CommentGoesOn(comment[1..]);
    ScanAppend(Code, open + comment, line);
  }

  lemma BreakIsStripped(before: string, line: string)
    requires before != [] && !IsSpace(before[|before| - 1]) && line == ['\n']
    ensures RStrip(before + line) == before
  {
    assert (before + line)[..|before + line| - 1] == before;
  }

  lemma CommentTrails(open: string, comment: string, line: string, rest: string)
    requires InCode(Scan(Code, open)) && IsComment(comment) && line == ['\n'] && rest != [] && rest[0] == ')'
    ensures var text, end := open + comment + line + rest, |open| + |comment| + 1;
            && Closes(text, end) && Trails(text, end) && Before(text, end) == open + comment && text[end..] == rest
  {
    var text, end := open + comment + line + rest, |open| + |comment| + 1;
    CommentReads(open, comment, line);
    assert text[..end] == open + comment + line && text[end..] == rest && text[end] == rest[0];
    BreakIsStripped(open + comment, line);
  }

  /** So that file is refused whole, by any such parser that finds its one call. */
  lemma CommentedIsRefused(parse: Parser, open: string, comment: string, c: Call, names: set<string>, secure: bool)
    requires NeedsBalance(parse) && ReadsCalls(parse) && parse(Commented(open, comment)) == Some([c])
    requires InCode(Scan(Code, open)) && IsComment(comment)
    requires c.end == |Commented(open, comment)| - 1 && Lacks(names, secure, c)
    ensures Rewritten(parse, Commented(open, comment), names, secure) == Refused
  {
    CommentTrails(open, comment, "\n", ")");
    LostAtTheEnd(parse, Commented(open, comment), c, names, secure);
  }

  lemma LostAtTheEnd(parse: Parser, text: string, c: Call, names: set<string>, secure: bool)
    requires NeedsBalance(parse) && ReadsCalls(parse) && parse(text) == Some([c]) && Lacks(names, secure, c)
    requires Closes(text, c.end) && Trails(text, c.end) && c.end + 1 == |text|
    ensures Rewritten(parse, text, names, secure) == Refused
  {
    LastEditIsRefused(parse, text, secure, c);
    RefusedAfterOneTurn(parse, text, c, names, secure);
  }

  lemma LastEditIsRefused(parse: Parser, text: string, secure: bool, c: Call)
    requires NeedsBalance(parse) && parse(text).Some? && Missing(secure, c) != []
    requires Closes(text, c.end) && Trails(text, c.end) && c.end + 1 == |text|
    ensures parse(Edited(text, secure, c)) == None
  {
    LastLine(text, c.end);
    LostEditIsRefused(parse, text, secure, c, 1);
  }

  lemma RefusedAfterOneTurn(parse: Parser, text: string, c: Call, names: set<string>, secure: bool)
    requires ReadsCalls(parse) && parse(text) == Some([c]) && Lacks(names, secure, c) && c.end <= |text|
    requires parse(Edited(text, secure, c)) == None
    ensures Rewritten(parse, text, names, secure) == Refused
  {
    OneCall(c, names, secure);
    TurnIsRewritten(parse, text, names, secure, 0, 0);
  }

  // ---- Two readings of one call ----

  /**
   * Where the first edit for a call goes into a comment and the file still parses, with the call now ending further
   * on, the loop edits twice for that one call, and what is saved is another program.
   */
  lemma MisreadIsAltered(parse: Parser, text: string, c: Call, d: Call, names: set<string>, secure: bool)
    requires ReadsCalls(parse) && parse(text) == Some([c]) && Lacks(names, secure, c)
    requires Closes(text, c.end) && Trails(text, c.end) && parse(Edited(text, secure, c)) == Some([d])
    requires d.end <= |Edited(text, secure, c)| && Lacks(names, secure, d) && Extensible(Edited(text, secure, c), d)
    ensures var r := Rewritten(parse, text, names, secure);
            r.Patched? && r.count == 2 && Lacking([c], names, secure) == 1 && Altered(text, r)
  {
    var edited := Edited(text, secure, c);
    OneCall(c, names, secure);
    OneCall(d, names, secure);
    TurnIsRewritten(parse, text, names, secure, 0, 0);
    OnlyCallIsRight(parse, edited, d, names, secure);
    LossIsAltered(parse, text, names, secure, c);
  }

  lemma OnlyCallIsRight(parse: Parser, text: string, d: Call, names: set<string>, secure: bool)
    requires ReadsCalls(parse) && parse(text) == Some([d])
    requires d.end <= |text| && Lacks(names, secure, d) && Extensible(text, d)
    ensures var r := Rewritten(parse, text, names, secure); r.Patched? && r.count == 1
  {
    OneCall(d, names, secure);
    ExtensibleIsRight(parse, text, names, secure);
  }

  /**
   * A parser that reads the call of one text, and of the text after its edit went into a comment, and the latter
   * once more when it is complete.
   */
  function TwoReadings(text: string, c: Call, edited: string, d: Call): Parser
    requires d.end <= |edited|
  {
    (t: string) =>
      if t == text then Some([c]) else if t == edited then Some([d])
      else if t == Edited(edited, true, d) then Some(Reread(edited, true, [d], 0)) else None
  }

  lemma SecureIsThere(c: Call)
    requires "secure" in c.keywords
    ensures Missing(true, c) == Missing(false, c)
  {
    var more, less := Flags(true), Flags(false);
    assert more[0] == less[0] && more[1] == "secure" && more[1..][1..] == less[1..];
    assert Filter(more[1..], NotIn(c.keywords)) == Filter(more[1..][1..], NotIn(c.keywords));
  }

  lemma SameEdit(text: string, c: Call, secure: bool)
    requires "secure" in c.keywords && c.end <= |text|
    ensures Missing(secure, c) == Missing(true, c) && Edited(text, secure, c) == Edited(text, true, c)
  {
    SecureIsThere(c);
  }

  /** Two readings of one call, the second behind an edit that went into a comment. */
  ghost predicate Misread(text: string, c: Call, edited: string, d: Call) {
    && Closes(text, c.end) && Trails(text, c.end) && Missing(true, c) != [] && edited == Edited(text, true, c)
    && Closes(edited, d.end) && Extensible(edited, d) && Before(edited, d.end) == edited[..d.end]
    && "secure" in c.keywords && d.keywords == c.keywords && d.name == c.name
  }

  lemma ReadingsDiffer(text: string, c: Call, edited: string, d: Call)
    requires Misread(text, c, edited, d)
    ensures text != edited && text != Edited(edited, true, d) && edited != Edited(edited, true, d)
  {
    EditFacts(text, true, c);
    SecureIsThere(c);
    assert Missing(true, d) == Missing(true, c);
    EditFacts(edited, true, d);
    var kept := AddArgumentsKeepsText(edited, d.end, Arguments(true, d));
    assert |Edited(edited, true, d)| > |edited|;
  }

  lemma SecondReading(edited: string, d: Call)
    requires Closes(edited, d.end) && Extensible(edited, d) && Missing(true, d) != []
    ensures var next := Reread(edited, true, [d], 0);
            CallsOf(Edited(edited, true, d), next) && Missing(true, next[0]) == []
  {
    ArgumentsAreReadable(true, d);
    LandsInCode(edited, d.end, Arguments(true, d));
    ItselfEnds(edited, d.end, Arguments(true, d));
    var front := Front(edited, d.end, Arguments(true, d));
    assert Edited(edited, true, d)[..|front|] == front;
    RereadIsCompleted(edited, [d], 0, {"*"}, true);
  }

  /** The text has one call, and its edit reads as it should. */
  ghost predicate ReadsOne(parse: Parser, t: string, secure: bool)
    requires parse(t).Some?
  {
    CallsOf(t, parse(t).value) && |parse(t).value| == 1 && EditReads(parse, t, secure, parse(t).value, 0)
  }

  lemma OneCallReads(parse: Parser)
    requires forall t, secure :: parse(t).Some? ==> ReadsOne(parse, t, secure)
    ensures ReadsCalls(parse)
  {
    forall t | parse(t).Some? ensures CallsOf(t, parse(t).value) {
      assert ReadsOne(parse, t, true);
    }
    forall t, secure, i | parse(t).Some? && 0 <= i < |parse(t).value|
      ensures EditReads(parse, t, secure, parse(t).value, i)
    {
      assert ReadsOne(parse, t, secure);
    }
  }

  lemma SecondReads(edited: string, d: Call, secure: bool, parse: Parser)
    requires Closes(edited, d.end) && Extensible(edited, d) && "secure" in d.keywords
    requires parse(edited) == Some([d]) && parse(Edited(edited, true, d)) == Some(Reread(edited, true, [d], 0))
    ensures ReadsOne(parse, edited, secure)
  {
    SameEdit(edited, d, secure);
    assert Reread(edited, secure, [d], 0) == Reread(edited, true, [d], 0);
  }

  lemma LastReads(edited: string, d: Call, secure: bool, parse: Parser)
    requires Closes(edited, d.end) && Extensible(edited, d) && "secure" in d.keywords && Missing(true, d) != []
    requires parse(Edited(edited, true, d)) == Some(Reread(edited, true, [d], 0))
    ensures ReadsOne(parse, Edited(edited, true, d), secure)
  {
    SecondReading(edited, d);
    SecureIsThere(Reread(edited, true, [d], 0)[0]);
  }

  lemma ReadingReads(text: string, c: Call, edited: string, d: Call, t: string, secure: bool)
    requires Misread(text, c, edited, d) && TwoReadings(text, c, edited, d)(t).Some?
    ensures ReadsOne(TwoReadings(text, c, edited, d), t, secure)
  {
    var parse := TwoReadings(text, c, edited, d);
    ReadingsDiffer(text, c, edited, d);
    if t == edited {
      SecondReads(edited, d, secure, parse);
    } else if t != text {
      assert Missing(true, d) == Missing(true, c);
      LastReads(edited, d, secure, parse);
    }
  }

  /** Such a parser does all that is asked of one. */
  lemma ReadingsAreCalls(text: string, c: Call, edited: string, d: Call)
    requires Misread(text, c, edited, d)
    ensures ReadsCalls(TwoReadings(text, c, edited, d))
  {
    var parse := TwoReadings(text, c, edited, d);
    forall t, secure | parse(t).Some? ensures ReadsOne(parse, t, secure) {
      ReadingReads(text, c, edited, d, t, secure);
    }
    OneCallReads(parse);
  }

  // ---- Files that are altered ----

  /** Plain text without parentheses. */
  predicate Bare(text: string) { Plain(text) && '(' !in text && ')' !in text }

  /**
   * A call inside another parenthesis, with a comment behind its last argument, where the line that closes the call
   * opens a parenthesis, too: the code up to the comment, the comment, what stands between the two parentheses of
   * that line, and what the second one holds.  Such is `x = (resp.set_cookie("sid", tok, secure=True,  # opaque`, then
   * `), (` and then `1))`.
   */
  datatype Sample = Sample(open: string, comment: string, middle: string, inner: string) {
    predicate Fits() {
      && InCode(Scan(Code, open)) && IsComment(comment)
      && Bare(middle) && (forall i :: 0 <= i < |middle| ==> !Breaks(middle[i]))
      && Bare(inner) && inner != [] && !IsSpace(inner[|inner| - 1]) && inner[|inner| - 1] != '\\'
    }

    function Line(): string { [')'] + middle + ['('] }

    function Rest(): string { ['\n'] + inner + [')', ')'] }

    function Text(): string { open + comment + ['\n'] + (Line() + Rest()) }

    function End(): nat { |open| + |comment| + 1 }

    /** The call as it is read at first. */
    function There(name: Option<string>): Call { Call(name, map["secure" := "True"], End(), false) }
  }

  /** The call as it is read after the edit: the line is part of the comment, and the call goes on to the next. */
  function Then(edited: string, name: Option<string>): Call
    requires |edited| >= 2
  {
    Call(name, map["secure" := "True"], |edited| - 2, false)
  }

  lemma PairBalances(middle: string)
    requires Bare(middle)
    ensures Balanced([')'] + middle + ['('])
  {
    assert multiset([')'] + middle + ['(']) == multiset{')'} + multiset(middle) + multiset{'('};
  }

  lemma PairReads(middle: string)
    requires Bare(middle)
    ensures Scan(Code, [')'] + middle + ['(']) == Code && BalancedText([')'] + middle + ['('])
  {
    PlainIsCode([')'] + middle + ['(']);
    PairBalances(middle);
  }

  lemma LineReads(x: Sample)
    requires x.Fits()
    ensures Scan(Code, x.Line()) == Code && BalancedText(x.Line())
    ensures forall i :: 0 <= i < |x.Line()| ==> !Breaks(x.Line()[i])
  {
    PairReads(x.middle);
  }

  /** Behind a comment's text the line is part of it, and what comes then is code. */
  lemma CodeAgainBehind(front: string, line: string, inner: string)
    requires Scan(Code, front) == Comment && (forall i :: 0 <= i < |line| ==> !Breaks(line[i])) && Plain(inner)
    ensures Scan(Code, front + line + ['\n'] + inner) == Code
  {
    ScanAppend(Code, front, line);
    CommentGoesOn(line);
    ScanAppend(Code, front + line, ['\n']);
    PlainIsCode(inner);
    ScanAppend(Code, front + line + ['\n'], inner);
  }

  lemma SampleTrails(x: Sample)
    requires x.Fits()
    ensures Closes(x.Text(), x.End()) && Trails(x.Text(), x.End()) && x.Text()[x.End()..] == x.Line() + x.Rest()
  {
    CommentTrails(x.open, x.comment, ['\n'], x.Line() + x.Rest());
  }

  lemma HttpOnlyIsMissing(secure: bool, c: Call)
    requires "httponly" !in c.keywords
    ensures Missing(secure, c) != []
  {
    FilterMember(Flags(secure), NotIn(c.keywords), "httponly");
  }

  /** The call closes with the first of the last two parentheses, and there it takes more arguments. */
  lemma ClosesThen(front: string, x: Sample, edited: string, name: Option<string>)
    requires x.Fits() && Scan(Code, front) == Comment && edited == front + (x.Line() + x.Rest())
    ensures |edited| >= 2 && Closes(edited, |edited| - 2) && Extensible(edited, Then(edited, name))
    ensures Before(edited, |edited| - 2) == edited[..|edited| - 2]
  {
    var before := front + x.Line() + ['\n'] + x.inner;
    LineReads(x);
    CodeAgainBehind(front, x.Line(), x.inner);
    assert edited == before + [')', ')'] && edited[..|edited| - 2] == before;
    assert before[|before| - 1] == x.inner[|x.inner| - 1];
  }

  lemma {:induction false} SampleIsMisread(x: Sample, name: Option<string>)
    requires x.Fits()
    ensures x.End() <= |x.Text()|
    ensures var edited := Edited(x.Text(), true, x.There(name));
            |edited| >= 2 && Misread(x.Text(), x.There(name), edited, Then(edited, name))
  {
    var text, c := x.Text(), x.There(name);
    SampleTrails(x);
    HttpOnlyIsMissing(true, c);
    ArgumentsAreReadable(true, c);
    FrontReads(text, c.end, Arguments(true, c));
    ClosesThen(Front(text, c.end, Arguments(true, c)), x, Edited(text, true, c), name);
  }

  // ---- Their parentheses ----

  lemma SliceOf(text: string, end: nat, line: string, rest: string)
    requires end <= |text| && text[end..] == line + rest
    ensures end + |line| <= |text| && text[end..end + |line|] == line && text[end + |line|..] == rest
  {
    assert text[end..end + |line|] == text[end..][..|line|] == line;
    assert text[end + |line|..] == text[end..][|line|..] == rest;
  }

  lemma LineOf(text: string, end: nat, line: string, rest: string)
    requires end <= |text| && text[end..] == line + rest && line != [] && rest != [] && Breaks(rest[0])
    requires (forall i :: 0 <= i < |line| ==> !Breaks(line[i])) && Scan(Code, line) == Code
    ensures ClosingLine(text, end, |line|) && text[end..end + |line|] == line
  {
    SliceOf(text, end, line, rest);
    assert text[end + |line|] == text[end + |line|..][0] == rest[0];
    assert forall i :: end <= i < end + |line| ==> text[i] == text[end..end + |line|][i - end] == line[i - end];
  }

  /** An edit there goes into a comment, and the line it takes along balances. */
  predicate EvenLoss(text: string, end: nat, n: nat) {
    Closes(text, end) && Trails(text, end) && ClosingLine(text, end, n) && BalancedText(text[end..end + n])
  }

  lemma SampleLine(x: Sample)
    requires x.Fits()
    ensures EvenLoss(x.Text(), x.End(), |x.Line()|)
  {
    LineReads(x);
    SampleTrails(x);
    LineOf(x.Text(), x.End(), x.Line(), x.Rest());
  }

  lemma EvenLossBalances(text: string, end: nat, arguments: string, n: nat)
    requires BalancedText(text) && EvenLoss(text, end, n) && Readable(arguments)
    ensures BalancedText(AddArguments(text, end, arguments))
  {
    LostLineBalances(text, end, arguments, n);
  }

  /** So the text still does. */
  lemma SampleStillBalances(x: Sample, c: Call, end: nat)
    requires x.Fits() && BalancedText(x.Text()) && end == x.End() == c.end && "httponly" !in c.keywords
    ensures end <= |x.Text()| && BalancedText(Edited(x.Text(), true, c))
  {
    HttpOnlyIsMissing(true, c);
    ArgumentsAreReadable(true, c);
    SampleLine(x);
    EvenLossBalances(x.Text(), end, Arguments(true, c), |x.Line()|);
  }

  lemma ReadingsBalance(text: string, c: Call, edited: string, d: Call)
    requires Misread(text, c, edited, d) && BalancedText(text) && BalancedText(edited)
    ensures NeedsBalance(TwoReadings(text, c, edited, d))
  {
    SecondBalances(edited, c, d);
    var parse := TwoReadings(text, c, edited, d);
    forall t | parse(t).Some? ensures BalancedText(t) {
      assert t == text || t == edited || t == Edited(edited, true, d);
    }
  }

  lemma SecondBalances(edited: string, c: Call, d: Call)
    requires Closes(edited, d.end) && Extensible(edited, d) && BalancedText(edited)
    requires Missing(true, c) != [] && d.keywords == c.keywords
    ensures BalancedText(Edited(edited, true, d))
  {
    ArgumentsAreReadable(true, d);
    ArgumentsHaveNoParentheses(true, d);
    LandedEditBalances(edited, d.end, Arguments(true, d));
  }

  lemma TwoReadingsOf(text: string, c: Call, edited: string, d: Call, secure: bool)
    requires Misread(text, c, edited, d)
    ensures var parse := TwoReadings(text, c, edited, d);
            && parse(text) == Some([c]) && parse(edited) == Some([d]) && Edited(text, secure, c) == edited
            && Missing(secure, c) != [] && Missing(secure, d) != []
  {
    ReadingsDiffer(text, c, edited, d);
    SameEdit(text, c, secure);
    SameEdit(edited, d, secure);
  }

  /**
   * There is a parser, of the kind that refuses what does not balance, with which the loop makes another program of
   * such a text: it edits twice for the one call.
   */
  lemma {:induction false} SampleIsAltered(x: Sample, name: Option<string>, names: set<string>, secure: bool)
    returns (parse: Parser)
    requires x.Fits() && BalancedText(x.Text()) && Matches(names, x.There(name))
    ensures ReadsCalls(parse) && NeedsBalance(parse) && parse(x.Text()) == Some([x.There(name)])
    ensures Lacking([x.There(name)], names, secure) == 1
    ensures var r := Rewritten(parse, x.Text(), names, secure); r.Patched? && r.count == 2 && Altered(x.Text(), r)
  {
    var text, c := x.Text(), x.There(name);
    SampleIsMisread(x, name);
    SampleStillBalances(x, c, c.end);
    var edited := Edited(text, true, c);
    var d := Then(edited, name);
    parse := TwoReadings(text, c, edited, d);
    ReadingsAreCalls(text, c, edited, d);
    ReadingsBalance(text, c, edited, d);
    TwoReadingsOf(text, c, edited, d, secure);
    MisreadIsAltered(parse, text, c, d, names, secure);
  }

  lemma CommentHasNoCode(s: Lex, comment: string)
    requires InCode(s) && IsComment(comment)
    ensures Scan(s, comment) == Comment && CodeOf(s, comment) == []
  {
    CodeAgain(s, comment);
    CommentGoesOn(comment[1..]);
  }

  lemma CodeBehindComment(open: string, comment: string, last: string)
    requires InCode(Scan(Code, open)) && IsComment(comment)
    ensures CodeOf(Code, open + comment + last) == CodeOf(Code, open) + CodeOf(Comment, last)
  {
    ScanAppend(Code, open, comment);
    CommentHasNoCode(Scan(Code, open), comment);
    ScanAppend(Code, open + comment, last);
  }

  lemma CodeOnNewLine(last: string)
    requires Plain(last)
    ensures CodeOf(Comment, ['\n'] + last) == ['\n'] + last
  {
    ScanAppend(Comment, ['\n'], last);
    PlainIsCode(last);
  }

  lemma SampleCode(x: Sample)
    requires x.Fits()
    ensures CodeOf(Code, x.Text()) == CodeOf(Code, x.open) + (['\n'] + (x.Line() + x.Rest()))
  {
    var last := x.Line() + x.Rest();
    assert x.Text() == x.open + x.comment + (['\n'] + last);
    CodeBehindComment(x.open, x.comment, ['\n'] + last);
    CodeOnNewLine(last);
  }

  lemma LinesClose(x: Sample)
    requires x.Fits()
    ensures Opens(['\n'] + (x.Line() + x.Rest())) == -2
  {
    OpensAdd(x.Line(), x.Rest());
    OpensAdd(['\n'], x.Line() + x.Rest());
    OpensAdd([')'] + x.middle, ['(']);
    OpensAdd(['\n'] + x.inner, [')', ')']);
  }

  /** The text balances if what stands before the comment opens two parentheses more than it closes. */
  lemma SampleBalances(x: Sample)
    requires x.Fits() && Opens(CodeOf(Code, x.open)) == 2
    ensures BalancedText(x.Text())
  {
    SampleCode(x);
    LinesClose(x);
    OpensAdd(CodeOf(Code, x.open), ['\n'] + (x.Line() + x.Rest()));
  }

  lemma OpensAdd(a: string, b: string)
    ensures Opens(a + b) == Opens(a) + Opens(b)
  {
  }

  /** As in `x = (resp.set_cookie("sid", tok, secure=True,`: two parentheses, and then a word in quotes. */
  lemma TupleOpensTwo(a: string, b: string, key: string, c: string) returns (open: string)
    requires Bare(a) && Bare(b) && Bare(c) && IsWord(key) && '\\' !in key && key != []
    ensures open == (a + ['('] + b + ['(']) + (['"'] + key + ['"']) + c
    ensures InCode(Scan(Code, open)) && Opens(CodeOf(Code, open)) == 2
  {
    var head, quoted := a + ['('] + b + ['('], ['"'] + key + ['"'];
    open := head + quoted + c;
    HeadOpensTwo(a, b);
    PlainIsCode(head);
    QuotedIsCode(key);
    QuotedOpensNone(key);
    PlainIsCode(c);
    ScanAppend(Code, head, quoted);
    ScanAppend(Code, head + quoted, c);
    OpensAdd(head, CodeOf(Code, quoted));
    OpensAdd(head + CodeOf(Code, quoted), c);
  }

  lemma HeadOpensTwo(a: string, b: string)
    requires Bare(a) && Bare(b)
    ensures Plain(a + ['('] + b + ['(']) && Opens(a + ['('] + b + ['(']) == 2
  {
  }

  lemma QuotedOpensNone(key: string)
    requires IsWord(key)
    ensures Opens(CodeOf(Code, ['"'] + key + ['"'])) == 0
  {
    var quoted := ['"'] + key + ['"'];
    CodeIsText(Code, quoted, '(');
    CodeIsText(Code, quoted, ')');
  }
}
