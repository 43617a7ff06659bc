/** String operations shared by the models of the shell, Python and Go code. */
module Text {

  datatype Option<+T> = None | Some(value: T) {
    function GetOr(default: T): T {
      if Some? then value else default
    }
  }

  lemma TailAppend<T>(xs: seq<T>, ys: seq<T>)
    requires xs != []
    ensures (xs + ys)[1..] == xs[1..] + ys && (xs + ys)[0] == xs[0]
  {
  }

  lemma InitAppend<T>(xs: seq<T>, ys: seq<T>)
    requires ys != []
    ensures (xs + ys)[..|xs + ys| - 1] == xs + ys[..|ys| - 1] && (xs + ys)[|xs + ys| - 1] == ys[|ys| - 1]
  {
  }

  lemma InTail<T>(x: T, xs: seq<T>, y: T)
    requires y in xs
    ensures y in [x] + xs
  {
  }

  lemma Associative<T>(xs: seq<T>, ys: seq<T>, zs: seq<T>)
    ensures xs + ys + zs == xs + (ys + zs)
  {
  }

  predicate Free(s: string, c: char) {
    c !in s
  }

  /** Position of the first c, or |s| when there is none. */
  function Find(s: string, c: char): (i: nat)
    ensures i <= |s|
    ensures forall k :: 0 <= k < i ==> s[k] != c
    ensures i < |s| ==> s[i] == c
  {
    if s == "" || s[0] == c then 0 else 1 + Find(s[1..], c)
  }

  /** Position of the last c, or -1 when there is none. */
  function FindLast(s: string, c: char): (i: int)
    ensures -1 <= i < |s|
    ensures forall k :: i < k < |s| ==> s[k] != c
    ensures 0 <= i ==> s[i] == c
  {
    if s == "" then -1
    else if s[|s| - 1] == c then |s| - 1
    else FindLast(s[..|s| - 1], c)
  }

  /** A separator that does not occur on its left is the first one. */
  lemma FirstSeparator(a: string, c: char, b: string)
    requires Free(a, c)
    ensures Find(a + [c] + b, c) == |a|
  {
    assert (a + [c] + b)[|a|] == c;
  }

  /** A separator that does not occur on its right is the last one. */
  lemma LastSeparator(a: string, c: char, b: string)
    requires Free(b, c)
    ensures FindLast(a + [c] + b, c) == |a|
  {
    Concatenated(a, [c], b);
    LastAt(a + [c] + b, c, |a|);
  }

  lemma Concatenated<T>(a: seq<T>, m: seq<T>, b: seq<T>)
    ensures forall k :: 0 <= k < |a| ==> (a + m + b)[k] == a[k]
    ensures forall k :: |a| <= k < |a| + |m| ==> (a + m + b)[k] == m[k - |a|]
    ensures forall k :: |a| + |m| <= k < |a + m + b| ==> (a + m + b)[k] == b[k - |a| - |m|]
  {
  }

  lemma LastAt(s: string, c: char, i: nat)
    requires i < |s| && s[i] == c && forall k :: i < k < |s| ==> s[k] != c
    ensures FindLast(s, c) == i
  {
  }

  /** The pieces of s between separators; never empty. */
  function Split(s: string, c: char): (r: seq<string>)
    ensures r != []
    ensures forall k :: 0 <= k < |r| ==> Free(r[k], c)
    decreases |s|
  {
    var i := Find(s, c);
    if i == |s| then
      assert s[..i] == s;
      [s]
    else
      [s[..i]] + Split(s[i + 1..], c)
  }

  lemma SplitFirst(s: string, i: nat, c: char, tail: seq<string>)
    requires i == Find(s, c) < |s| && tail == Split(s[i + 1..], c)
    ensures Split(s, c) == [s[..i]] + tail
  {
  }

  function Join(xs: seq<string>, c: char): string {
    if xs == [] then ""
    else if |xs| == 1 then xs[0]
    else xs[0] + [c] + Join(xs[1..], c)
  }

  lemma {:induction false} JoinSplit(s: string, c: char)
    ensures Join(Split(s, c), c) == s
    decreases |s|
  {
    var i := Find(s, c);
    if i == |s| {
      assert s[..i] == s;
    } else {
      JoinSplit(s[i + 1..], c);
      JoinStep(s, i, c, Split(s[i + 1..], c));
    }
  }

  lemma JoinStep(s: string, i: nat, c: char, tail: seq<string>)
    requires i == Find(s, c) < |s| && tail == Split(s[i + 1..], c) && Join(tail, c) == s[i + 1..]
    ensures Join(Split(s, c), c) == s
  {
    SplitFirst(s, i, c, tail);
    JoinCons(s[..i], tail, c);
    CutOut(s, i);
  }

  lemma CutOut(s: string, i: nat)
    requires i < |s|
    ensures s == s[..i] + [s[i]] + s[i + 1..]
  {
  }

  lemma JoinCons(x: string, xs: seq<string>, c: char)
    ensures Join([x] + xs, c) == if xs == [] then x else x + [c] + Join(xs, c)
  {
    assert ([x] + xs)[1..] == xs;
  }

  lemma {:induction false} SplitJoin(xs: seq<string>, c: char)
    requires xs != [] && forall k :: 0 <= k < |xs| ==> Free(xs[k], c)
    ensures Split(Join(xs, c), c) == xs
  {
    if |xs| == 1 {
    } else {
      var rest := Join(xs[1..], c);
      SplitJoin(xs[1..], c);
      FirstSeparator(xs[0], c, rest);
      var s := xs[0] + [c] + rest;
      assert s[..|xs[0]|] == xs[0] && s[|xs[0]| + 1..] == rest;
    }
  }

  /** Splitting a text made of two parts around a separator. */
  lemma {:induction false} SplitAppend(a: string, c: char, b: string)
    ensures Split(a + [c] + b, c) == Split(a, c) + Split(b, c)
    decreases |a|
  {
    var i := Find(a, c);
    if i == |a| {
      SplitCons(a, c, b);
    } else {
      var r := a[i + 1..];
      SplitAppend(r, c, b);
      SplitStep(a, i, c, b, Split(r, c), Split(b, c));
    }
  }

  lemma SplitStep(a: string, i: nat, c: char, b: string, tail: seq<string>, more: seq<string>)
    requires i == Find(a, c) < |a| && tail == Split(a[i + 1..], c) && Split(a[i + 1..] + [c] + b, c) == tail + more
    ensures Split(a + [c] + b, c) == Split(a, c) + more
  {
    Regroup(a, i, c, b);
    SplitCons(a[..i], c, a[i + 1..] + [c] + b);
    Associative([a[..i]], tail, more);
  }

  lemma Regroup(a: string, i: nat, c: char, b: string)
    requires i < |a| && a[i] == c
    ensures a + [c] + b == a[..i] + [c] + (a[i + 1..] + [c] + b)
  {
  }

  lemma SplitCons(l: string, c: char, r: string)
    requires Free(l, c)
    ensures Split(l + [c] + r, c) == [l] + Split(r, c)
  {
    FirstSeparator(l, c, r);
    assert (l + [c] + r)[..|l|] == l && (l + [c] + r)[|l| + 1..] == r;
  }

  /** What a reader of a separated list gets back is what was joined, exactly
      when no element holds the separator. */
  lemma SplitJoinIff(xs: seq<string>, c: char)
    requires xs != []
    ensures Split(Join(xs, c), c) == xs <==> forall k :: 0 <= k < |xs| ==> Free(xs[k], c)
  {
    if forall k :: 0 <= k < |xs| ==> Free(xs[k], c) {
      SplitJoin(xs, c);
    }
  }

  lemma {:induction false} JoinAppend(xs: seq<string>, x: string, c: char)
    ensures Join(xs + [x], c) == if xs == [] then x else Join(xs, c) + [c] + x
  {
    if |xs| > 1 {
      JoinAppend(xs[1..], x, c);
      assert (xs + [x])[1..] == xs[1..] + [x];
    } else if |xs| == 1 {
      assert (xs + [x])[1..] == [x];
    }
  }

  predicate StartsWith(s: string, prefix: string) {
    |prefix| <= |s| && s[..|prefix|] == prefix
  }

  predicate EndsWith(s: string, suffix: string) {
    |suffix| <= |s| && s[|s| - |suffix|..] == suffix
  }

  /** Whitespace of Python's str.strip and str.split. */
  predicate IsSpace(c: char) {
    || '\t' <= c <= '\r' || '\U{1c}' <= c <= ' '
    || c == '\U{85}' || c == '\U{a0}' || c == '\U{1680}'
    || '\U{2000}' <= c <= '\U{200a}'
    || c == '\U{2028}' || c == '\U{2029}' || c == '\U{202f}' || c == '\U{205f}' || c == '\U{3000}'
  }

  /** Line boundaries of Python's str.splitlines. */
  predicate IsLineBreak(c: char) {
    '\n' <= c <= '\r' || '\U{1c}' <= c <= '\U{1e}' || c == '\U{85}' || c == '\U{2028}' || c == '\U{2029}'
  }

  function LStrip(s: string): (r: string)
    ensures |r| <= |s| && r == s[|s| - |r|..]
    ensures r != "" ==> !IsSpace(r[0])
    ensures forall k :: 0 <= k < |s| - |r| ==> IsSpace(s[k])
  {
    if s != "" && IsSpace(s[0]) then LStrip(s[1..]) else s
  }

  lemma LStripNone(s: string)
    requires s == "" || !IsSpace(s[0])
    ensures LStrip(s) == s
  {
  }

  lemma LStripFirst(s: string, tail: string)
    requires s != "" && IsSpace(s[0]) && s[1..] == tail
    ensures LStrip(s) == LStrip(tail)
  {
  }

  function RStrip(s: string): (r: string)
    ensures |r| <= |s| && r == s[..|r|]
    ensures r != "" ==> !IsSpace(r[|r| - 1])
    ensures forall k :: |r| <= k < |s| ==> IsSpace(s[k])
  {
    if s != "" && IsSpace(s[|s| - 1]) then RStrip(s[..|s| - 1]) else s
  }

  /** Python's str.strip. */
  function Strip(s: string): string {
    RStrip(LStrip(s))
  }

  /** No whitespace at either end. */
  predicate Trimmed(s: string) {
    s == "" || (!IsSpace(s[0]) && !IsSpace(s[|s| - 1]))
  }

  lemma StripIdentity(s: string)
    ensures Strip(s) == s <==> Trimmed(s)
  {
    var l := LStrip(s);
    if Strip(s) == s {
      assert |l| == |s|;
    }
  }

  /** `$(...)` and rstrip of newlines: the text without its trailing newlines. */
  function Chomp(s: string): string {
    if s != "" && s[|s| - 1] == '\n' then Chomp(s[..|s| - 1]) else s
  }

  /** s is word and newlines after it. */
  predicate Reads(s: string, word: string) {
    |word| <= |s| && s[..|word|] == word && forall k :: |word| <= k < |s| ==> s[k] == '\n'
  }

  /** Chomp leaves the word that s holds before its trailing newlines. */
  lemma {:induction false} ChompReads(s: string, word: string)
    requires word == "" || word[|word| - 1] != '\n'
    ensures Chomp(s) == word <==> Reads(s, word)
  {
    assert s[..|s|] == s;
    if s != "" && s[|s| - 1] == '\n' {
      var t := s[..|s| - 1];
      ChompReads(t, word);
      if Reads(s, word) {
        assert |word| < |s|;
        assert t[..|word|] == s[..|word|];
      }
      if Reads(t, word) {
        assert s[..|word|] == t[..|word|];
        assert forall k :: |word| <= k < |t| ==> s[k] == t[k];
      }
    } else if Reads(s, word) {
      assert |s| == |word|;
    }
  }

  /** str.splitlines: no piece after a final line break; CR LF counts once. */
  function SplitLines(text: string): seq<string>
    decreases |text|
  {
    if text == "" then []
    else
      var i := LineEnd(text);
      [text[..i]] + SplitLines(if i == |text| then ""
                               else if text[i] == '\r' && i + 1 < |text| && text[i + 1] == '\n' then text[i + 2..]
                               else text[i + 1..])
  }

  function LineEnd(text: string): (i: nat)
    ensures i <= |text| && (i < |text| ==> IsLineBreak(text[i]))
    ensures forall k :: 0 <= k < i ==> !IsLineBreak(text[k])
  {
    if text == "" || IsLineBreak(text[0]) then 0 else 1 + LineEnd(text[1..])
  }

  /** No line boundary in s. */
  predicate NoBreak(s: string) {
    forall k :: 0 <= k < |s| ==> !IsLineBreak(s[k])
  }

  lemma LineEndAt(s: string, i: nat)
    requires i <= |s| && (i < |s| ==> IsLineBreak(s[i])) && forall k :: 0 <= k < i ==> !IsLineBreak(s[k])
    ensures LineEnd(s) == i
  {
  }

  /** A line without breaks ends at the break after it, whatever follows; CR LF is one. */
  lemma SplitLinesStep(line: string, end: string, rest: string)
    requires NoBreak(line)
    requires end == "\r\n" || (|end| == 1 && IsLineBreak(end[0]) && (end == "\r" ==> rest == "" || rest[0] != '\n'))
    ensures SplitLines(line + end + rest) == [line] + SplitLines(rest)
  {
    var text := line + end + rest;
    Concatenated(line, end, rest);
    assert text[|line|] == end[0] && IsLineBreak('\r');
    LineEndAt(text, |line|);
    assert text[..|line|] == line && text[|line| + |end|..] == rest;
    if end == "\r\n" {
      assert text[|line| + 1] == '\n';
    } else if rest != "" {
      assert text[|line| + 1] == rest[0];
    }
  }

  /** The lines, each closed with a newline. */
  function Closing(lines: seq<string>): string {
    if lines == [] then "" else lines[0] + "\n" + Closing(lines[1..])
  }

  lemma ClosingCons(lines: seq<string>, last: string)
    requires lines != []
    ensures Closing(lines) + last == lines[0] + "\n" + (Closing(lines[1..]) + last)
  {
  }

  lemma SplitLinesOne(line: string)
    requires NoBreak(line)
    ensures SplitLines(line) == if line == "" then [] else [line]
  {
    if line != "" {
      LineEndAt(line, |line|);
      assert line[..|line|] == line;
    }
  }

  /** splitlines of break-free lines each closed with a newline gives those lines; a last
      line that is not closed counts when it is not empty. */
  lemma {:induction false} SplitLinesClosing(lines: seq<string>, last: string)
    requires NoBreak(last) && forall k :: 0 <= k < |lines| ==> NoBreak(lines[k])
    ensures SplitLines(Closing(lines) + last) == lines + if last == "" then [] else [last]
  {
    if lines == [] {
      assert Closing(lines) + last == last;
      SplitLinesOne(last);
    } else {
      var rest := Closing(lines[1..]) + last;
      SplitLinesClosing(lines[1..], last);
      ClosingCons(lines, last);
      HeadLine(lines, rest, if last == "" then [] else [last]);
    }
  }

  lemma HeadLine(lines: seq<string>, rest: string, end: seq<string>)
    requires lines != [] && NoBreak(lines[0]) && SplitLines(rest) == lines[1..] + end
    ensures SplitLines(lines[0] + "\n" + rest) == lines + end
  {
    LineThen(lines[0], rest, lines[1..] + end);
    HeadAgain(lines, end);
  }

  lemma LineThen(line: string, rest: string, tail: seq<string>)
    requires NoBreak(line) && SplitLines(rest) == tail
    ensures SplitLines(line + "\n" + rest) == [line] + tail
  {
    SplitLinesStep(line, "\n", rest);
  }

  lemma HeadAgain<T>(xs: seq<T>, ys: seq<T>)
    requires xs != []
    ensures [xs[0]] + (xs[1..] + ys) == xs + ys
  {
  }

  /** Position of the first ": ", or |s|. */
  function FindColon(s: string): (i: nat)
    ensures i <= |s| && (i < |s| ==> i + 2 <= |s| && s[i] == ':' && s[i + 1] == ' ')
    ensures forall k :: 0 <= k < i && k + 1 < |s| ==> !(s[k] == ':' && s[k + 1] == ' ')
  {
    if |s| < 2 then |s| else if s[0] == ':' && s[1] == ' ' then 0 else 1 + FindColon(s[1..])
  }

  /** A text without ": " before one is cut there. */
  lemma FirstColon(a: string, b: string)
    requires forall k :: 0 <= k < |a| - 1 ==> !(a[k] == ':' && a[k + 1] == ' ')
    ensures FindColon(a + ": " + b) == |a|
    ensures (a + ": " + b)[..|a|] == a && (a + ": " + b)[|a| + 2..] == b
  {
    var s := a + ": " + b;
    Concatenated(a, ": ", b);
    assert s[|a|] == ':' && s[|a| + 1] == ' ';
    assert forall k :: 0 <= k < |a| ==> s[k] == a[k];
  }

  /** Code point order on strings, as Python compares them. */
  predicate LexLeq(a: string, b: string) {
    if a == "" then true
    else if b == "" then false
    else a[0] < b[0] || (a[0] == b[0] && LexLeq(a[1..], b[1..]))
  }

  lemma {:induction false} LexTotal(a: string, b: string)
    ensures LexLeq(a, b) || LexLeq(b, a)
    ensures LexLeq(a, b) && LexLeq(b, a) ==> a == b
  {
    if a == "" || b == "" {
    } else {
      LexTotal(a[1..], b[1..]);
      if a[0] == b[0] && a[1..] == b[1..] {
        assert a == [a[0]] + a[1..] && b == [b[0]] + b[1..];
      }
    }
  }

  lemma {:induction false} LexTransitive(a: string, b: string, c: string)
    requires LexLeq(a, b) && LexLeq(b, c)
    ensures LexLeq(a, c)
  {
    if a == "" || b == "" || c == "" {
    } else if a[0] == b[0] == c[0] {
      LexTransitive(a[1..], b[1..], c[1..]);
    }
  }
}
