/** UTF-8 (section 3 of RFC 3629) and the byte columns that Python's `ast` reports. */
module Utf8 {
  import opened Sequences

  function EncodeChar(c: char): (r: seq<nat>)
    ensures 1 <= |r| <= 4
  {
    var n := c as int;
    if n < 0x80 then [n]
    else if n < 0x800 then [0xC0 + n / 64, 0x80 + n % 64]
    else if n < 0x10000 then [0xE0 + n / 4096, 0x80 + n / 64 % 64, 0x80 + n % 64]
    else [0xF0 + n / 262144, 0x80 + n / 4096 % 64, 0x80 + n / 64 % 64, 0x80 + n % 64]
  }

  function Encode(s: string): seq<nat> {
    if s == [] then [] else EncodeChar(s[0]) + Encode(s[1..])
  }

  predicate Continues(b: nat) { 0x80 <= b < 0xC0 }

  datatype Decoded = Decoded(symbol: char, width: nat)

  /** The character at the front of the bytes, if a whole well-formed one stands there. */
  function DecodeOne(b: seq<nat>): (r: Option<Decoded>)
    requires b != []
    ensures r.Some? ==> 1 <= r.value.width <= |b|
  {
    if b[0] < 0x80 then Some(Decoded(b[0] as char, 1))
    else if 0xC2 <= b[0] < 0xE0 && |b| >= 2 && Continues(b[1]) then
      Some(Decoded(((b[0] - 0xC0) * 64 + b[1] - 0x80) as char, 2))
    else if 0xE0 <= b[0] < 0xF0 && |b| >= 3 && Continues(b[1]) && Continues(b[2]) then
      var n := (b[0] - 0xE0) * 4096 + (b[1] - 0x80) * 64 + b[2] - 0x80;
      if n < 0x800 || 0xD800 <= n < 0xE000 then None else Some(Decoded(n as char, 3))
    else if 0xF0 <= b[0] < 0xF5 && |b| >= 4 && Continues(b[1]) && Continues(b[2]) && Continues(b[3]) then
      var n := (b[0] - 0xF0) * 262144 + (b[1] - 0x80) * 4096 + (b[2] - 0x80) * 64 + b[3] - 0x80;
      if n < 0x10000 || n >= 0x110000 then None else Some(Decoded(n as char, 4))
    else None
  }

  /** `b.decode("utf-8", errors="ignore")` */
  function Decode(b: seq<nat>): string {
    if b == [] then []
    else
      match DecodeOne(b)
      case Some(d) => [d.symbol] + Decode(b[d.width..])
      case None => Decode(b[1..])
  }

  lemma Digits(n: nat)
    ensures n / 64 * 64 + n % 64 == n
    ensures n / 4096 * 4096 + n / 64 % 64 * 64 + n % 64 == n
    ensures n / 262144 * 262144 + n / 4096 % 64 * 4096 + n / 64 % 64 * 64 + n % 64 == n
  {
    assert n / 64 / 64 == n / 4096 && n / 4096 / 64 == n / 262144;
  }

  lemma DecodeTwo(c: char, b: seq<nat>)
    requires 0x80 <= c as int < 0x800 && |b| >= 2
    requires b[0] == 0xC0 + c as int / 64 && b[1] == 0x80 + c as int % 64
    ensures DecodeOne(b) == Some(Decoded(c, 2))
  {
    Digits(c as int);
  }

  lemma DecodeThree(c: char, b: seq<nat>)
    requires 0x800 <= c as int < 0x10000 && |b| >= 3
    requires b[0] == 0xE0 + c as int / 4096 && b[1] == 0x80 + c as int / 64 % 64 && b[2] == 0x80 + c as int % 64
    ensures DecodeOne(b) == Some(Decoded(c, 3))
  {
    Digits(c as int);
  }

  lemma DecodeFour(c: char, b: seq<nat>)
    requires 0x10000 <= c as int && |b| >= 4
    requires b[0] == 0xF0 + c as int / 262144 && b[1] == 0x80 + c as int / 4096 % 64
    requires b[2] == 0x80 + c as int / 64 % 64 && b[3] == 0x80 + c as int % 64
    ensures DecodeOne(b) == Some(Decoded(c, 4))
  {
    Digits(c as int);
  }

  lemma DecodeEncoded(c: char, rest: seq<nat>)
    ensures DecodeOne(EncodeChar(c) + rest) == Some(Decoded(c, |EncodeChar(c)|))
  {
    var n := c as int;
    if 0x80 <= n < 0x800 {
      DecodeTwo(c, EncodeChar(c) + rest);
    } else if 0x800 <= n < 0x10000 {
      DecodeThree(c, EncodeChar(c) + rest);
    } else if 0x10000 <= n {
      DecodeFour(c, EncodeChar(c) + rest);
    }
  }

  /** A cut character decodes to nothing. */
  lemma DecodeCut(c: char, k: nat)
    requires k < |EncodeChar(c)|
    ensures Decode(EncodeChar(c)[..k]) == []
  {
    var b := EncodeChar(c)[..k];
    DropsContinuations(if k == 0 then [] else b[1..]);
  }

  lemma {:induction false} DropsContinuations(b: seq<nat>)
    requires forall i :: 0 <= i < |b| ==> Continues(b[i])
    ensures Decode(b) == []
  {
    if b != [] {
      DropsContinuations(b[1..]);
    }
  }

  lemma {:induction false} EncodeAppend(s: string, t: string)
    ensures Encode(s + t) == Encode(s) + Encode(t)
  {
    if s == [] {
      assert s + t == t;
    } else {
      assert (s + t)[1..] == s[1..] + t;
      EncodeAppend(s[1..], t);
    }
  }

  /** How many whole characters of s fit in k bytes. */
  function Fit(s: string, k: nat): (n: nat)
    ensures n <= |s|
  {
    if s == [] || k < |EncodeChar(s[0])| then 0 else 1 + Fit(s[1..], k - |EncodeChar(s[0])|)
  }

  /** Decoding any cut of an encoding gives back exactly the characters that fit. */
  lemma {:induction false} DecodePrefix(s: string, k: nat)
    requires k <= |Encode(s)|
    ensures Decode(Encode(s)[..k]) == s[..Fit(s, k)]
  {
    if s == [] {
    } else if k < |EncodeChar(s[0])| {
      assert Encode(s)[..k] == EncodeChar(s[0])[..k];
      DecodeCut(s[0], k);
    } else {
      var w := |EncodeChar(s[0])|;
      var rest := Encode(s[1..])[..k - w];
      assert Encode(s)[..k] == EncodeChar(s[0]) + rest;
      DecodeEncoded(s[0], rest);
      assert (EncodeChar(s[0]) + rest)[w..] == rest;
      DecodePrefix(s[1..], k - w);
      assert [s[0]] + s[1..][..Fit(s[1..], k - w)] == s[..Fit(s, k)];
    }
  }

  /** Fit is the largest number of characters whose encoding takes at most k bytes. */
  lemma {:induction false} FitIsLargest(s: string, k: nat, j: nat)
    requires j <= |s|
    ensures j <= Fit(s, k) <==> |Encode(s[..j])| <= k
  {
    if j > 0 {
      assert s[..j][0] == s[0] && s[..j][1..] == s[1..][..j - 1];
      if k >= |EncodeChar(s[0])| {
        FitIsLargest(s[1..], k - |EncodeChar(s[0])|, j - 1);
      }
    }
  }

  lemma {:induction false} FitWhole(s: string, k: nat)
    requires |Encode(s)| <= k
    ensures Fit(s, k) == |s|
  {
    FitIsLargest(s, k, |s|);
    assert s[..|s|] == s;
  }

  lemma {:induction false} RoundTrip(s: string)
    ensures Decode(Encode(s)) == s
  {
    DecodePrefix(s, |Encode(s)|);
    FitWhole(s, |Encode(s)|);
    assert Encode(s)[..|Encode(s)|] == Encode(s) && s[..|s|] == s;
  }

  /** `_col`: the character index of a byte column. */
  function Col(line: string, column: nat): nat {
    var b := Encode(line);
    |Decode(if column < |b| then b[..column] else b)|
  }

  /** A byte column, on a character boundary or not, is mapped to the last boundary not after it. */
  lemma ColIsLastBoundary(line: string, column: nat, j: nat)
    requires j <= |line|
    ensures Col(line, column) <= |line|
    ensures j <= Col(line, column) <==> |Encode(line[..j])| <= column
  {
    var b := Encode(line);
    if column < |b| {
      DecodePrefix(line, column);
    } else {
      RoundTrip(line);
      FitWhole(line, column);
    }
    FitIsLargest(line, column, j);
  }

  lemma {:induction false} LongerTakesMore(s: string, i: nat, j: nat)
    requires i < j <= |s|
    ensures |Encode(s[..i])| < |Encode(s[..j])|
  {
    assert s[..j] == s[..i] + s[i..j];
    EncodeAppend(s[..i], s[i..j]);
    assert Encode(s[i..j]) == EncodeChar(s[i..j][0]) + Encode(s[i..j][1..]);
  }

  /** The column of a character comes back as that character's index. */
  lemma ColRecovers(line: string, i: nat)
    requires i <= |line|
    ensures Col(line, |Encode(line[..i])|) == i
  {
    var column := |Encode(line[..i])|;
    var r := Col(line, column);
    ColIsLastBoundary(line, column, i);
    if r > i {
      ColIsLastBoundary(line, column, r);
      LongerTakesMore(line, i, r);
    }
  }
}

/** Edits of a source file, by line and by syntax node (security/patcher.py). */
module Patcher {
  import opened Sequences
  import opened Utf8

  const NL: string := "\n"

  /** `text.split("\n")` */
  function Lines(text: string): (r: seq<string>)
    ensures r != []
  {
    if text == [] then [[]]
    else
      var rest := Lines(text[1..]);
      if text[0] == '\n' then [[]] + rest else [[text[0]] + rest[0]] + rest[1..]
  }

  /** `"\n".join(lines)` */
  function Join(lines: seq<string>): string {
    if lines == [] then []
    else if |lines| == 1 then lines[0]
    else lines[0] + NL + Join(lines[1..])
  }

  lemma {:induction false} JoinLines(text: string)
    ensures Join(Lines(text)) == text
  {
    if text != [] {
      JoinLines(text[1..]);
      var rest := Lines(text[1..]);
      if text[0] == '\n' {
        assert [[]] + rest == Lines(text) && ([[]] + rest)[1..] == rest;
      } else {
        JoinLonger(text[0], rest);
      }
      assert [text[0]] + text[1..] == text;
    }
  }

  lemma JoinLonger(c: char, rest: seq<string>)
    requires rest != []
    ensures Join([[c] + rest[0]] + rest[1..]) == [c] + Join(rest)
  {
    var longer := [[c] + rest[0]] + rest[1..];
    assert longer[1..] == rest[1..];
    if |rest| > 1 {
      assert [c] + rest[0] + NL + Join(rest[1..]) == [c] + (rest[0] + NL + Join(rest[1..]));
    }
  }

  predicate OneLine(s: string) { '\n' !in s }

  lemma {:induction false} LinesJoin(lines: seq<string>)
    requires lines != [] && forall l :: l in lines ==> OneLine(l)
    ensures Lines(Join(lines)) == lines
    decreases |lines|, |lines[0]|
  {
    var first := lines[0];
    var text := Join(lines);
    if first == [] {
      if |lines| > 1 {
        assert text == NL + Join(lines[1..]) && text[1..] == Join(lines[1..]);
        LinesJoin(lines[1..]);
        assert lines == [first] + lines[1..];
      }
    } else {
      assert OneLine(first);
      var shorter := [first[1..]] + lines[1..];
      assert shorter[1..] == lines[1..];
      assert text == [first[0]] + Join(shorter);
      assert text[1..] == Join(shorter);
      forall l | l in shorter ensures OneLine(l) {
        assert l == first[1..] || l in lines;
      }
      LinesJoin(shorter);
      assert [first[0]] + first[1..] == first;
      assert lines == [first] + lines[1..];
    }
  }

  lemma {:induction false} LinesHaveNoBreak(text: string)
    ensures forall l :: l in Lines(text) ==> OneLine(l)
  {
    if text != [] {
      LinesHaveNoBreak(text[1..]);
      assert Lines(text[1..])[0] in Lines(text[1..]);
    }
  }

  // ---- From syntax positions to character offsets ----

  /** Where a node starts or ends: a line counted from 1 and a byte column in it. */
  datatype Position = Position(line: nat, column: nat)

  /** The position of the i-th character: lines before it, and bytes since the last line break. */
  function PositionOf(text: string, i: nat): (p: Position)
    requires i <= |text|
    ensures 1 <= p.line
  {
    if i == 0 then Position(1, 0)
    else
      var before := PositionOf(text, i - 1);
      if text[i - 1] == '\n' then Position(before.line + 1, 0)
      else Position(before.line, before.column + |EncodeChar(text[i - 1])|)
  }

  /** `sum(len(x) + 1 for x in lines)` */
  function Widths(lines: seq<string>): nat {
    if lines == [] then 0 else |lines[0]| + 1 + Widths(lines[1..])
  }

  /** The character offset that `_replace_node` computes for a position. */
  function Offset(text: string, p: Position): nat
    requires 1 <= p.line <= |Lines(text)|
  {
    Widths(Lines(text)[..p.line - 1]) + Col(Lines(text)[p.line - 1], p.column)
  }

  /** `text[:start] + replacement + text[end:]` for a node that spans from one position to another. */
  function ReplaceNode(text: string, start: Position, end: Position, replacement: string): string
    requires 1 <= start.line <= |Lines(text)| && 1 <= end.line <= |Lines(text)|
  {
    OffsetInText(text, start);
    OffsetInText(text, end);
    text[..Offset(text, start)] + replacement + text[Offset(text, end)..]
  }

  lemma {:induction false} WidthsAt(text: string, n: nat)
    requires n < |Lines(text)|
    ensures Widths(Lines(text)[..n]) + |Lines(text)[n]| <= |text|
    ensures text[Widths(Lines(text)[..n])..][..|Lines(text)[n]|] == Lines(text)[n]
  {
    var lines := Lines(text);
    if text == [] {
    } else {
      var rest := Lines(text[1..]);
      if text[0] == '\n' {
        if n > 0 {
          WidthsAt(text[1..], n - 1);
          assert lines[..n][1..] == rest[..n - 1];
          assert text[Widths(lines[..n])..] == text[1..][Widths(rest[..n - 1])..];
        }
      } else {
        WidthsAt(text[1..], n);
        if n > 0 {
          assert lines[..n][1..] == rest[..n][1..];
          assert Widths(lines[..n]) == 1 + Widths(rest[..n]);
          assert text[Widths(lines[..n])..] == text[1..][Widths(rest[..n])..];
        } else {
          assert text[..|lines[0]|] == [text[0]] + text[1..][..|rest[0]|];
        }
      }
    }
  }

  lemma OffsetInText(text: string, p: Position)
    requires 1 <= p.line <= |Lines(text)|
    ensures Offset(text, p) <= |text|
  {
    WidthsAt(text, p.line - 1);
    ColIsLastBoundary(Lines(text)[p.line - 1], p.column, 0);
  }

  /** Character i stands in line `line`, k characters after its start. */
  ghost predicate StandsAt(text: string, i: nat, line: nat, k: nat) {
    && 1 <= line <= |Lines(text)| && k <= |Lines(text)[line - 1]|
    && Widths(Lines(text)[..line - 1]) + k == i
  }

  lemma {:induction false} Stands(text: string, i: nat) returns (k: nat)
    requires i <= |text|
    ensures StandsAt(text, i, PositionOf(text, i).line, k)
    ensures PositionOf(text, i).column == |Encode(Lines(text)[PositionOf(text, i).line - 1][..k])|
  {
    if i == 0 {
      k := 0;
    } else {
      var k0 := Stands(text, i - 1);
      var before := PositionOf(text, i - 1);
      if text[i - 1] == '\n' {
        k := 0;
        StandsNextLine(text, i, before.line, k0);
      } else {
        k := k0 + 1;
        StandsFurther(text, i, before.line, k0);
      }
    }
  }

  lemma StandsNextLine(text: string, i: nat, line: nat, k: nat)
    requires 0 < i <= |text| && text[i - 1] == '\n' && StandsAt(text, i - 1, line, k)
    ensures StandsAt(text, i, line + 1, 0)
  {
    NextCharacter(text, line - 1, k);
    var lines := Lines(text);
    assert lines[..line] == lines[..line - 1] + [lines[line - 1]];
    WidthsAppend(lines[..line - 1], [lines[line - 1]]);
    assert Widths([lines[line - 1]]) == |lines[line - 1]| + 1 + Widths([]);
  }

  lemma StandsFurther(text: string, i: nat, line: nat, k: nat)
    requires 0 < i <= |text| && text[i - 1] != '\n' && StandsAt(text, i - 1, line, k)
    ensures StandsAt(text, i, line, k + 1)
    ensures |Encode(Lines(text)[line - 1][..k + 1])| == |Encode(Lines(text)[line - 1][..k])| + |EncodeChar(text[i - 1])|
  {
    NextCharacter(text, line - 1, k);
    var it := Lines(text)[line - 1];
    assert it[..k + 1] == it[..k] + [it[k]];
    EncodeAppend(it[..k], [it[k]]);
    assert Encode([it[k]]) == EncodeChar(it[k]) + Encode([]);
  }

  lemma {:induction false} WidthsAppend(a: seq<string>, b: seq<string>)
    ensures Widths(a + b) == Widths(a) + Widths(b)
  {
    if a == [] {
      assert a + b == b;
    } else {
      assert (a + b)[1..] == a[1..] + b;
      WidthsAppend(a[1..], b);
    }
  }

  /** Inside a line the text goes on with that line; at its end comes a break, and then another line. */
  lemma NextCharacter(text: string, n: nat, k: nat)
    requires n < |Lines(text)| && k <= |Lines(text)[n]|
    requires Widths(Lines(text)[..n]) + k < |text|
    ensures var c := text[Widths(Lines(text)[..n]) + k];
            && (c == '\n' <==> k == |Lines(text)[n]|)
            && (c == '\n' ==> n + 1 < |Lines(text)|)
            && (c != '\n' ==> c == Lines(text)[n][k])
  {
    var lines := Lines(text);
    WidthsAt(text, n);
    LinesHaveNoBreak(text);
    assert lines[n] in lines;
    var at := Widths(lines[..n]);
    if k < |lines[n]| {
      assert text[at..][..|lines[n]|][k] == lines[n][k];
    } else {
      BreakAfter(text, n);
    }
  }

  lemma {:induction false} BreakAfter(text: string, n: nat)
    requires n < |Lines(text)|
    ensures Widths(Lines(text)[..n]) + |Lines(text)[n]| == |text| <==> n + 1 == |Lines(text)|
    ensures var e := Widths(Lines(text)[..n]) + |Lines(text)[n]|; e < |text| ==> text[e] == '\n'
    ensures Widths(Lines(text)[..n]) + |Lines(text)[n]| <= |text|
  {
    var lines := Lines(text);
    if text != [] {
      var rest := Lines(text[1..]);
      if text[0] == '\n' {
        if n > 0 {
          BreakAfter(text[1..], n - 1);
          assert lines[..n][1..] == rest[..n - 1];
        }
      } else {
        BreakAfter(text[1..], n);
        if n > 0 {
          assert lines[..n][1..] == rest[..n][1..];
        }
      }
    }
  }

  /** The offset computed from a character's position is that character's index, in any text. */
  lemma OffsetRecovers(text: string, i: nat)
    requires i <= |text|
    ensures 1 <= PositionOf(text, i).line <= |Lines(text)|
    ensures Offset(text, PositionOf(text, i)) == i
  {
    var k := Stands(text, i);
    ColRecovers(Lines(text)[PositionOf(text, i).line - 1], k);
  }

  /** `_replace_node` on the node that `ast` reports for the characters from a to b. */
  function ReplaceSpan(text: string, a: nat, b: nat, replacement: string): string
    requires a <= b <= |text|
  {
    OffsetRecovers(text, a);
    OffsetRecovers(text, b);
    ReplaceNode(text, PositionOf(text, a), PositionOf(text, b), replacement)
  }

  /** Replacing a node changes exactly the node's own characters, whatever is around it. */
  lemma ReplaceNodeIsExact(text: string, a: nat, b: nat, replacement: string)
    requires a <= b <= |text|
    ensures ReplaceSpan(text, a, b, replacement) == text[..a] + replacement + text[b..]
  {
    OffsetRecovers(text, a);
    OffsetRecovers(text, b);
  }

  lemma SpliceBack(text: string, a: nat, b: nat, replacement: string, edited: string)
    requires a <= b <= |text| && edited == text[..a] + replacement + text[b..]
    ensures edited[..a] + text[a..b] + edited[a + |replacement|..] == text
  {
    assert edited[..a] == text[..a] && edited[a + |replacement|..] == text[b..];
  }

  /** Putting the old text back over the replacement restores the file. */
  lemma ReplaceNodeUndone(text: string, a: nat, b: nat, replacement: string, edited: string)
    requires a <= b <= |text| && edited == text[..a] + replacement + text[b..]
    ensures ReplaceSpan(edited, a, a + |replacement|, text[a..b]) == text
  {
    SpliceBack(text, a, b, replacement, edited);
    ReplaceNodeIsExact(edited, a, a + |replacement|, text[a..b]);
  }

  // ---- Inserting lines ----

  /** `_insert_after_line`; a line number past the end inserts at the end, as slicing does. */
  function InsertAfterLine(text: string, n: nat, block: string): string {
    var lines := Lines(text);
    var at := if n < |lines| then n else |lines|;
    Join(lines[..at] + Lines(block) + lines[at..])
  }

  function DeleteLines(text: string, n: nat, count: nat): string
    requires n + count <= |Lines(text)|
  {
    Join(Lines(text)[..n] + Lines(text)[n + count..])
  }

  /** The inserted lines stand after line n, and deleting them restores the text. */
  lemma InsertUndone(text: string, n: nat, block: string)
    ensures var at := if n < |Lines(text)| then n else |Lines(text)|;
            var edited := InsertAfterLine(text, n, block);
            && |Lines(edited)| == |Lines(text)| + |Lines(block)|
            && Lines(edited)[at..at + |Lines(block)|] == Lines(block)
            && DeleteLines(edited, at, |Lines(block)|) == text
  {
    var lines, added := Lines(text), Lines(block);
    var at := if n < |lines| then n else |lines|;
    var all := lines[..at] + added + lines[at..];
    LinesHaveNoBreak(text);
    LinesHaveNoBreak(block);
    forall l | l in all ensures OneLine(l) {
      assert l in lines || l in added;
    }
    LinesJoin(all);
    assert all[at..at + |added|] == added;
    assert all[..at] + all[at + |added|..] == lines;
    JoinLines(text);
  }
}
