/** Replacing the lines of a text that satisfy a test, and appending one when no line
    does. */
module Lines {
  import opened Text

  /** The span from b to e is one line of the text. */
  predicate LineAt(text: string, b: nat, e: nat) {
    && b <= e <= |text|
    && (b == 0 || text[b - 1] == '\n')
    && (forall x :: b <= x < e ==> text[x] != '\n')
    && (e == |text| || text[e] == '\n')
  }

  lemma LineFind(text: string, b: nat, e: nat, rest: string)
    requires LineAt(text, b, e) && rest == text[b..]
    ensures Find(rest, '\n') == e - b && rest[..e - b] == text[b..e]
    ensures e < |text| ==> rest[e - b + 1..] == text[e + 1..]
  {
    assert e < |text| ==> rest[e - b] == '\n';
    forall x | 0 <= x < e - b ensures rest[x] != '\n' {
      assert rest[x] == text[b + x];
    }
  }

  lemma LineEndOf(text: string, b: nat) returns (e: nat)
    requires b <= |text| && (b == 0 || text[b - 1] == '\n')
    ensures LineAt(text, b, e)
  {
    e := b;
    while e < |text| && text[e] != '\n'
      invariant b <= e <= |text| && forall x :: b <= x < e ==> text[x] != '\n'
    {
      e := e + 1;
    }
  }

  /** The first line of a text and the others. */
  lemma SplitLine(text: string, b: nat, e: nat)
    requires LineAt(text, b, e)
    ensures Split(text[b..], '\n') == [text[b..e]] + if e == |text| then [] else Split(text[e + 1..], '\n')
  {
    var rest := text[b..];
    LineFind(text, b, e, rest);
    if e == |text| {
      assert rest[..|rest|] == rest;
    } else {
      SplitFirst(rest, e - b, '\n', Split(text[e + 1..], '\n'));
    }
  }

  lemma LineOrder(text: string, p: nat, q: nat, b: nat, e: nat)
    requires LineAt(text, p, q) && LineAt(text, b, e) && p <= b
    ensures if b == p then e == q else q < b
  {
  }

  lemma {:induction false} LineInRest(text: string, p: nat, b: nat, e: nat, lines: seq<string>)
    requires LineAt(text, b, e) && p <= b && (p == 0 || text[p - 1] == '\n') && lines == Split(text[p..], '\n')
    ensures text[b..e] in lines
    decreases b - p
  {
    var q := LineEndOf(text, p);
    LineOrder(text, p, q, b, e);
    SplitLine(text, p, q);
    if p == b {
      assert lines[0] == text[b..e];
    } else {
      LineInRest(text, q + 1, b, e, Split(text[q + 1..], '\n'));
      InTail(text[p..q], Split(text[q + 1..], '\n'), text[b..e]);
    }
  }

  lemma LinesAreSplit(text: string, b: nat, e: nat)
    requires LineAt(text, b, e)
    ensures text[b..e] in Split(text, '\n')
  {
    assert text[0..] == text;
    LineInRest(text, 0, b, e, Split(text, '\n'));
  }

  /** Every piece of the text at its newlines is one of its lines. */
  lemma SplitAreLines(text: string, line: string) returns (b: nat, e: nat)
    requires line in Split(text, '\n')
    ensures LineAt(text, b, e) && text[b..e] == line
  {
    var before, after := Around(text, line);
    b, e := |before|, |before| + |line|;
    LineBetween(before, line, after);
  }

  lemma LineBetween(before: string, line: string, after: string)
    requires Free(line, '\n')
    requires before == "" || before[|before| - 1] == '\n'
    requires after == "" || after[0] == '\n'
    ensures LineAt(before + line + after, |before|, |before| + |line|)
    ensures (before + line + after)[|before|..|before| + |line|] == line
  {
    var text, b := before + line + after, |before|;
    Concatenated(before, line, after);
    assert b > 0 ==> text[b - 1] == before[b - 1];
    assert after != "" ==> text[b + |line|] == after[0];
  }

  lemma {:induction false} Around(text: string, line: string) returns (before: string, after: string)
    requires line in Split(text, '\n')
    ensures text == before + line + after && Free(line, '\n')
    ensures before == "" || before[|before| - 1] == '\n'
    ensures after == "" || after[0] == '\n'
    decreases |text|
  {
    var i := Find(text, '\n');
    var head := text[..i];
    if line == head {
      before, after := "", text[i..];
    } else {
      var rest := SplitTail(text, line);
      var x, y := Around(rest, line);
      before, after := head + "\n" + x, y;
      Reassemble(text, i, x, line, y);
    }
  }

  lemma Reassemble(text: string, i: nat, x: string, line: string, y: string)
    requires i < |text| && text[i] == '\n' && text[i + 1..] == x + line + y
    ensures text == text[..i] + "\n" + x + line + y
  {
    assert text == text[..i] + "\n" + text[i + 1..];
  }

  lemma SplitTail(text: string, line: string) returns (rest: string)
    requires line in Split(text, '\n') && line != text[..Find(text, '\n')]
    ensures Find(text, '\n') < |text| && rest == text[Find(text, '\n') + 1..] && line in Split(rest, '\n')
  {
    var i := Find(text, '\n');
    assert text[..|text|] == text;
    rest := text[i + 1..];
    var tail := Split(rest, '\n');
    assert Split(text, '\n') == [text[..i]] + tail;
  }

  ghost predicate Any(test: string -> bool, lines: seq<string>) {
    exists k :: 0 <= k < |lines| && test(lines[k])
  }

  /** Every line that satisfies the test becomes `line`. */
  function Replaced(test: string -> bool, lines: seq<string>, line: string): (r: seq<string>)
    ensures |r| == |lines|
    ensures forall k :: 0 <= k < |lines| ==> r[k] == if test(lines[k]) then line else lines[k]
  {
    if lines == [] then []
    else [if test(lines[0]) then line else lines[0]] + Replaced(test, lines[1..], line)
  }

  /** The text with its matching lines replaced. */
  function Whole(test: string -> bool, repl: string, text: string): string {
    Join(Replaced(test, Split(text, '\n'), repl), '\n')
  }

  /** The text after the replacement, with the line appended when none matches. */
  ghost function Rewritten(test: string -> bool, line: string, text: string): string {
    var r := Whole(test, line, text);
    if Any(test, Split(r, '\n')) then r
    else Closed(r) + line + "\n"
  }

  /** The lines before the appended one. */
  function Kept(lines: seq<string>): seq<string>
    requires lines != []
  {
    if lines[|lines| - 1] == "" then lines[..|lines| - 1] else lines
  }

  /** The same on lines: the piece after the final newline gives way to the new line. */
  ghost function RewrittenLines(test: string -> bool, line: string, lines: seq<string>): seq<string>
    requires lines != []
  {
    if Any(test, lines) then Replaced(test, lines, line)
    else Kept(lines) + [line, ""]
  }

  lemma {:induction false} LastLine(text: string)
    ensures var ls := Split(text, '\n');
            (ls[|ls| - 1] == "" <==> text == "" || text[|text| - 1] == '\n')
    decreases |text|
  {
    var i := Find(text, '\n');
    if i == |text| {
    } else {
      var tail := Split(text[i + 1..], '\n');
      LastLine(text[i + 1..]);
      SplitFirst(text, i, '\n', tail);
      InitAppend([text[..i]], tail);
      SameEnd(text, i);
    }
  }

  lemma SameEnd(text: string, i: nat)
    requires i < |text| && text[i] == '\n'
    ensures text[|text| - 1] == if i + 1 == |text| then '\n' else text[i + 1..][|text| - i - 2]
  {
  }

  lemma TwoLines(line: string)
    requires Free(line, '\n')
    ensures Split(line + "\n", '\n') == [line, ""]
  {
    SplitCons(line, '\n', "");
    assert line + ['\n'] + "" == line + "\n";
  }

  /** A text with its last line closed. */
  function Closed(text: string): string {
    if text != "" && !EndsWith(text, "\n") then text + "\n" else text
  }

  /** The lines of a text, without the empty piece after a final newline. */
  function ClosedLines(text: string): seq<string> {
    Kept(Split(text, '\n'))
  }

  lemma AppendLines(text: string, line: string)
    requires Free(line, '\n')
    ensures Split(Closed(text) + line + "\n", '\n') == ClosedLines(text) + [line, ""]
  {
    LastLine(text);
    if text == "" {
      TwoLines(line);
      assert Closed(text) + line + "\n" == line + "\n";
      assert ClosedLines(text) == [];
    } else if text[|text| - 1] == '\n' {
      AppendClosed(text, text[..|text| - 1], line);
    } else {
      assert !EndsWith(text, "\n");
      AppendAfterNewline(text, line);
    }
  }

  lemma AppendClosed(text: string, body: string, line: string)
    requires text == body + "\n" && Free(line, '\n')
    ensures Closed(text) == text
    ensures Split(text + line + "\n", '\n') == ClosedLines(text) + [line, ""]
  {
    AppendAfterNewline(body, line);
    assert EndsWith(text, "\n");
    InitAppend(Split(body, '\n'), [""]);
    assert [""][..0] == [];
    assert ClosedLines(text) == Split(body, '\n');
  }

  lemma AppendAfterNewline(body: string, line: string)
    requires Free(line, '\n')
    ensures Split(body + "\n" + line + "\n", '\n') == Split(body, '\n') + [line, ""]
    ensures Split(body + "\n", '\n') == Split(body, '\n') + [""]
  {
    TwoLines(line);
    SplitAppend(body, '\n', "");
    assert body + ['\n'] + "" == body + "\n";
    SplitAppend(body, '\n', line + "\n");
    assert body + "\n" + line + "\n" == body + ['\n'] + (line + "\n");
  }

  lemma RewrittenByLines(test: string -> bool, line: string, text: string)
    requires Free(line, '\n') && test(line)
    ensures Split(Rewritten(test, line, text), '\n') == RewrittenLines(test, line, Split(text, '\n'))
  {
    var ls := Split(text, '\n');
    var rs := Replaced(test, ls, line);
    SplitJoin(rs, '\n');
    if Any(test, ls) {
      var k :| 0 <= k < |ls| && test(ls[k]);
      assert test(rs[k]);
    } else {
      assert rs == ls;
      JoinSplit(text, '\n');
      AppendLines(text, line);
    }
  }

  lemma ReplacedTwice(test: string -> bool, l1: string, l2: string, lines: seq<string>)
    requires test(l1)
    ensures Replaced(test, Replaced(test, lines, l1), l2) == Replaced(test, lines, l2)
  {
  }

  lemma ReplacedLast(test: string -> bool, l1: string, l2: string, init: seq<string>)
    requires test(l1) && !test("") && !Any(test, init)
    ensures Replaced(test, init + [l1, ""], l2) == init + [l2, ""]
  {
    ReplacedConcat(test, init, [l1, ""], l2);
    ReplacedNone(test, init, l2);
    assert Replaced(test, [l1, ""], l2) == [l2, ""];
  }

  lemma ReplacedConcat(test: string -> bool, a: seq<string>, b: seq<string>, line: string)
    ensures Replaced(test, a + b, line) == Replaced(test, a, line) + Replaced(test, b, line)
  {
  }

  lemma ReplacedNone(test: string -> bool, lines: seq<string>, line: string)
    requires !Any(test, lines)
    ensures Replaced(test, lines, line) == lines
  {
  }

  lemma AnyReplaced(test: string -> bool, line: string, lines: seq<string>)
    requires test(line)
    ensures Any(test, lines) ==> Any(test, Replaced(test, lines, line))
  {
    if Any(test, lines) {
      var k :| 0 <= k < |lines| && test(lines[k]);
      assert test(Replaced(test, lines, line)[k]);
    }
  }

  lemma AnyAppended(test: string -> bool, line: string, init: seq<string>)
    requires test(line)
    ensures Any(test, init + [line, ""])
  {
    assert (init + [line, ""])[|init|] == line;
  }

  lemma NoneKept(test: string -> bool, lines: seq<string>)
    requires lines != [] && !Any(test, lines)
    ensures !Any(test, Kept(lines))
  {
  }

  lemma RewrittenLinesAbsorb(test: string -> bool, l1: string, l2: string, lines: seq<string>)
    requires test(l1) && !test("") && lines != []
    ensures RewrittenLines(test, l2, RewrittenLines(test, l1, lines)) == RewrittenLines(test, l2, lines)
  {
    if Any(test, lines) {
      AnyReplaced(test, l1, lines);
      ReplacedTwice(test, l1, l2, lines);
    } else {
      NoneKept(test, lines);
      AnyAppended(test, l1, Kept(lines));
      ReplacedLast(test, l1, l2, Kept(lines));
    }
  }

  /** A later rewrite absorbs an earlier one. */
  lemma RewrittenAbsorbs(test: string -> bool, l1: string, l2: string, text: string)
    requires Free(l1, '\n') && Free(l2, '\n') && test(l1) && test(l2) && !test("")
    ensures Rewritten(test, l2, Rewritten(test, l1, text)) == Rewritten(test, l2, text)
  {
    RewrittenByLines(test, l1, text);
    RewrittenByLines(test, l2, text);
    RewrittenByLines(test, l2, Rewritten(test, l1, text));
    RewrittenLinesAbsorb(test, l1, l2, Split(text, '\n'));
    JoinSplit(Rewritten(test, l2, text), '\n');
    JoinSplit(Rewritten(test, l2, Rewritten(test, l1, text)), '\n');
  }

  lemma KeptInPlace(test: string -> bool, line: string, lines: seq<string>, k: nat)
    requires k < |lines| && !test(lines[k]) && (k < |lines| - 1 || lines[k] != "")
    ensures k < |RewrittenLines(test, line, lines)| && RewrittenLines(test, line, lines)[k] == lines[k]
  {
  }

  /** Lines that do not match keep their place. */
  lemma OthersKept(test: string -> bool, line: string, text: string, k: nat)
    requires Free(line, '\n') && test(line)
    requires k < |Split(text, '\n')| && !test(Split(text, '\n')[k])
    requires k < |Split(text, '\n')| - 1 || Split(text, '\n')[k] != ""
    ensures k < |Split(Rewritten(test, line, text), '\n')|
    ensures Split(Rewritten(test, line, text), '\n')[k] == Split(text, '\n')[k]
  {
    RewrittenByLines(test, line, text);
    KeptInPlace(test, line, Split(text, '\n'), k);
  }

  lemma MatchingRewritten(test: string -> bool, line: string, lines: seq<string>)
    requires test(line) && !test("") && lines != []
    ensures Any(test, RewrittenLines(test, line, lines))
    ensures forall l :: l in RewrittenLines(test, line, lines) && test(l) ==> l == line
  {
    var rs := RewrittenLines(test, line, lines);
    if Any(test, lines) {
      var k :| 0 <= k < |lines| && test(lines[k]);
      assert test(rs[k]);
    } else {
      var init := Kept(lines);
      assert test(rs[|init|]);
      forall k | 0 <= k < |init| ensures !test(init[k]) {
        assert init[k] == lines[k];
      }
      assert forall l :: l in rs ==> l in init || l == line || l == "";
    }
  }

  /** A matching line exists, and the matching lines are all the new one. */
  lemma MatchingLines(test: string -> bool, line: string, text: string)
    requires Free(line, '\n') && test(line) && !test("")
    ensures Any(test, Split(Rewritten(test, line, text), '\n'))
    ensures forall l :: l in Split(Rewritten(test, line, text), '\n') && test(l) ==> l == line
  {
    RewrittenByLines(test, line, text);
    MatchingRewritten(test, line, Split(text, '\n'));
  }

  // ---------- a text rewritten line after line ----------

  lemma JoinReplaced(test: string -> bool, repl: string, line: string, tail: seq<string>)
    ensures var x := if test(line) then repl else line;
            Join(Replaced(test, [line] + tail, repl), '\n') == if tail == [] then x else x + "\n" + Join(Replaced(test, tail, repl), '\n')
  {
    var x := if test(line) then repl else line;
    ReplacedConcat(test, [line], tail, repl);
    assert Replaced(test, [line], repl) == [x];
    JoinCons(x, Replaced(test, tail, repl), '\n');
  }

  /** f reads the text line after line: the piece of a line, and after a newline the rest. */
  ghost predicate LineWise(text: string, f: nat -> string, piece: (nat, nat) -> string) {
    forall b: nat, e: nat :: LineAt(text, b, e) ==> f(b) == if e == |text| then piece(b, e) else piece(b, e) + "\n" + f(e + 1)
  }

  /** Two such readings of one text are equal. */
  lemma {:induction false} LineWiseUnique(text: string, f: nat -> string, g: nat -> string, piece: (nat, nat) -> string, b: nat)
    requires LineWise(text, f, piece) && LineWise(text, g, piece) && b <= |text| && (b == 0 || text[b - 1] == '\n')
    ensures f(b) == g(b)
    decreases |text| - b
  {
    var e := LineEndOf(text, b);
    if e == |text| {
    } else {
      LineWiseUnique(text, f, g, piece, e + 1);
    }
  }

  function Piece(test: string -> bool, repl: string, text: string, b: nat, e: nat): string {
    if b <= e <= |text| then (if test(text[b..e]) then repl else text[b..e]) else ""
  }

  lemma WholeLine(test: string -> bool, repl: string, text: string, b: nat, e: nat)
    requires LineAt(text, b, e)
    ensures Whole(test, repl, text[b..]) ==
            if e == |text| then Piece(test, repl, text, b, e)
            else Piece(test, repl, text, b, e) + "\n" + Whole(test, repl, text[e + 1..])
  {
    SplitLine(text, b, e);
    JoinReplaced(test, repl, text[b..e], if e == |text| then [] else Split(text[e + 1..], '\n'));
  }

  lemma WholeIsLineWise(test: string -> bool, repl: string, text: string, g: nat -> string, piece: (nat, nat) -> string)
    requires forall i: nat :: i <= |text| ==> g(i) == Whole(test, repl, text[i..])
    requires forall b, e :: piece(b, e) == Piece(test, repl, text, b, e)
    ensures LineWise(text, g, piece)
  {
    forall b: nat, e: nat | LineAt(text, b, e)
      ensures g(b) == if e == |text| then piece(b, e) else piece(b, e) + "\n" + g(e + 1)
    {
      WholeLine(test, repl, text, b, e);
    }
  }
}
