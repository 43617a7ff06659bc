/** The 127.0.1.1 line of /etc/hosts: WriteHostsBootstrap on the text and on the file. */
module Hosts {
  import opened Text
  import opened Regex
  import opened Shapes
  import opened Lines

  const LOOPBACK := "127.0.1.1"

  function Literal(p: string): Regex {
    if p == "" then Empty else Cat(Char(Only(p[0])), Literal(p[1..]))
  }

  const HOSTS_REST := Cat(Plus(Char(Blank)), Cat(Char(NonSpace), Star(Char(NotNewline))))

  /** (?m)^address[ \t]+\S.* */
  function EntryRe(address: string): Regex {
    Cat(BeginLine, Cat(Literal(address), HOSTS_REST))
  }

  // ---------- the pattern matches whole lines ----------

  predicate HostAt(address: string, line: string, k: int) {
    |address| < k < |line| && All(Blank, line, |address|, k) && In(NonSpace, line[k])
  }

  /** The line holds the address, blanks and then something. */
  ghost predicate IsEntry(address: string, line: string) {
    StartsWith(line, address) && exists k :: HostAt(address, line, k)
  }

  lemma {:induction false} LiteralSpan(p: string, s: string, i: nat, j: nat)
    requires i <= j <= |s|
    ensures Match(Go, Literal(p), s, i, j) <==> j == i + |p| && s[i..j] == p
    decreases |p|
  {
    if p == "" {
    } else {
      if Match(Go, Literal(p), s, i, j) {
        var m := CutCat(Go, Char(Only(p[0])), Literal(p[1..]), s, i, j);
        LiteralSpan(p[1..], s, m, j);
        assert s[i..j] == [s[i]] + s[i + 1..j];
      }
      if j == i + |p| && s[i..j] == p {
        assert s[i..j][0] == p[0] && s[i + 1..j] == p[1..];
        LiteralSpan(p[1..], s, i + 1, j);
        MatchCat(Go, Char(Only(p[0])), Literal(p[1..]), s, i, i + 1, j);
      }
    }
  }

  lemma RestCuts(s: string, i: nat, j: nat) returns (k: nat)
    requires i <= j <= |s| && Match(Go, HOSTS_REST, s, i, j)
    ensures i < k < j && All(Blank, s, i, k) && In(NonSpace, s[k]) && All(NotNewline, s, k + 1, j)
  {
    k := CutCat(Go, Plus(Char(Blank)), Cat(Char(NonSpace), Star(Char(NotNewline))), s, i, j);
    var n := CutCat(Go, Char(NonSpace), Star(Char(NotNewline)), s, k, j);
    PlusClass(Go, Blank, s, i, k);
    StarClass(Go, NotNewline, s, n, j);
  }

  lemma RestMatches(s: string, i: nat, k: nat, j: nat)
    requires i < k < j <= |s| && All(Blank, s, i, k) && In(NonSpace, s[k]) && All(NotNewline, s, k + 1, j)
    ensures Match(Go, HOSTS_REST, s, i, j)
  {
    PlusClass(Go, Blank, s, i, k);
    StarClass(Go, NotNewline, s, k + 1, j);
    MatchCat(Go, Char(NonSpace), Star(Char(NotNewline)), s, k, k + 1, j);
    MatchCat(Go, Plus(Char(Blank)), Cat(Char(NonSpace), Star(Char(NotNewline))), s, i, k, j);
  }

  /** In an entry line the pattern matches from its start to its end, so a greedy
      replacement takes the whole line. */
  lemma EntryMatches(address: string, text: string, b: nat, e: nat)
    requires LineAt(text, b, e) && IsEntry(address, text[b..e])
    ensures Match(Go, EntryRe(address), text, b, e)
  {
    var n := |address|;
    var k := EntryParts(address, text, b, e);
    LiteralSpan(address, text, b, b + n);
    RestMatches(text, b + n, k, e);
    AtLineStart(address, text, b, b + n, e);
  }

  lemma AtLineStart(address: string, text: string, b: nat, n: nat, e: nat)
    requires b <= n <= e <= |text| && (b == 0 || text[b - 1] == '\n')
    requires Match(Go, Literal(address), text, b, n) && Match(Go, HOSTS_REST, text, n, e)
    ensures Match(Go, EntryRe(address), text, b, e)
  {
    MatchCat(Go, Literal(address), HOSTS_REST, text, b, n, e);
    MatchCat(Go, BeginLine, Cat(Literal(address), HOSTS_REST), text, b, b, e);
  }

  /** Where the parts of an entry line stand in the text. */
  lemma EntryParts(address: string, text: string, b: nat, e: nat) returns (k: nat)
    requires LineAt(text, b, e) && IsEntry(address, text[b..e])
    ensures b + |address| < k < e && text[b..b + |address|] == address
    ensures All(Blank, text, b + |address|, k) && In(NonSpace, text[k]) && All(NotNewline, text, k + 1, e)
  {
    var line, n := text[b..e], |address|;
    var at :| HostAt(address, line, at);
    k := b + at;
    assert text[b..b + n] == line[..n];
    assert forall x :: 0 <= x < |line| ==> line[x] == text[b + x];
    forall x | b + n <= x < k ensures In(Blank, text[x]) {
      assert text[x] == line[x - b];
    }
  }

  lemma EntryCuts(address: string, text: string, i: nat, j: nat) returns (k: nat)
    requires i <= j <= |text| && Match(Go, EntryRe(address), text, i, j)
    ensures i == 0 || text[i - 1] == '\n'
    ensures i + |address| < k < j && text[i..i + |address|] == address
    ensures All(Blank, text, i + |address|, k) && In(NonSpace, text[k]) && All(NotNewline, text, k + 1, j)
  {
    var m := CutCat(Go, BeginLine, Cat(Literal(address), HOSTS_REST), text, i, j);
    var n := CutCat(Go, Literal(address), HOSTS_REST, text, m, j);
    LiteralSpan(address, text, i, n);
    k := RestCuts(text, n, j);
  }

  lemma CutsHoldNoNewline(address: string, text: string, i: nat, k: nat, j: nat)
    requires Free(address, '\n') && i + |address| < k < j <= |text| && text[i..i + |address|] == address
    requires All(Blank, text, i + |address|, k) && In(NonSpace, text[k]) && All(NotNewline, text, k + 1, j)
    ensures forall x :: i <= x < j ==> text[x] != '\n'
  {
    forall x | i <= x < j ensures text[x] != '\n' {
      if x < i + |address| {
        assert text[x] == address[x - i];
      }
    }
  }

  lemma CutsAreEntry(address: string, text: string, i: nat, k: nat, e: nat)
    requires i + |address| < k < e <= |text| && text[i..i + |address|] == address
    requires All(Blank, text, i + |address|, k) && In(NonSpace, text[k])
    ensures IsEntry(address, text[i..e])
  {
    var line := text[i..e];
    assert line[..|address|] == text[i..i + |address|];
    forall x | |address| <= x < k - i ensures In(Blank, line[x]) {
      assert line[x] == text[i + x];
    }
    assert HostAt(address, line, k - i);
  }

  /** Every match starts at the start of an entry line and stays in it. */
  lemma MatchesAreEntries(address: string, text: string, i: nat, j: nat, e: nat)
    requires Free(address, '\n') && i <= j <= |text| && Match(Go, EntryRe(address), text, i, j)
    requires i <= e <= |text| && (forall x :: i <= x < e ==> text[x] != '\n') && (e == |text| || text[e] == '\n')
    ensures LineAt(text, i, e) && IsEntry(address, text[i..e]) && j <= e
  {
    var k := EntryCuts(address, text, i, j);
    CutsHoldNoNewline(address, text, i, k, j);
    CutsAreEntry(address, text, i, k, e);
  }

  /** MatchString finds the pattern exactly when some line is an entry. */
  lemma MatchStringExact(address: string, text: string)
    requires Free(address, '\n')
    ensures GoAccepts(EntryRe(address), text) <==> exists line :: line in Split(text, '\n') && IsEntry(address, line)
  {
    if GoAccepts(EntryRe(address), text) {
      var i: nat, j: nat :| i <= j <= |text| && Match(Go, EntryRe(address), text, i, j);
      var e := i;
      while e < |text| && text[e] != '\n'
        invariant i <= e <= |text| && forall x :: i <= x < e ==> text[x] != '\n'
      {
        e := e + 1;
      }
      MatchesAreEntries(address, text, i, j, e);
      LinesAreSplit(text, i, e);
    }
    if exists line :: line in Split(text, '\n') && IsEntry(address, line) {
      var line :| line in Split(text, '\n') && IsEntry(address, line);
      var b, e := SplitAreLines(text, line);
      EntryMatches(address, text, b, e);
    }
  }

  // ---------- replacing every match ----------

  /** A match of the pattern starts at i. */
  ghost predicate StartsAt(address: string, text: string, i: nat)
    requires i <= |text|
  {
    exists j: nat :: i <= j <= |text| && Match(Go, EntryRe(address), text, i, j)
  }

  /** The longest match that starts at i and ends at n or before. */
  ghost function LongestUpTo(address: string, text: string, i: nat, n: nat): (e: nat)
    requires i <= n <= |text| && exists j: nat :: i <= j <= n && Match(Go, EntryRe(address), text, i, j)
    ensures i <= e <= n && Match(Go, EntryRe(address), text, i, e)
    ensures forall j: nat :: e < j <= n ==> !Match(Go, EntryRe(address), text, i, j)
  {
    if Match(Go, EntryRe(address), text, i, n) then n else LongestUpTo(address, text, i, n - 1)
  }

  lemma MatchNonEmpty(address: string, text: string, i: nat, j: nat)
    requires i <= j <= |text| && Match(Go, EntryRe(address), text, i, j)
    ensures i < j
  {
    var k := EntryCuts(address, text, i, j);
  }

  /** ReplaceAllString from position i on: the pattern's repetitions are greedy, so each
      match runs as far as one can. */
  ghost function ReplaceFrom(address: string, text: string, repl: string, i: nat): string
    requires i <= |text|
    decreases |text| - i
  {
    if i == |text| then ""
    else if StartsAt(address, text, i) then
      var e := LongestUpTo(address, text, i, |text|);
      MatchNonEmpty(address, text, i, e);
      repl + ReplaceFrom(address, text, repl, e)
    else [text[i]] + ReplaceFrom(address, text, repl, i + 1)
  }

  ghost function ReplaceAll(address: string, text: string, repl: string): string {
    ReplaceFrom(address, text, repl, 0)
  }

  lemma {:induction false} SkipTo(address: string, text: string, repl: string, i: nat, e: nat)
    requires i <= e <= |text| && forall x :: i <= x < e ==> !StartsAt(address, text, x)
    ensures ReplaceFrom(address, text, repl, i) == text[i..e] + ReplaceFrom(address, text, repl, e)
    decreases e - i
  {
    if i == e {
    } else {
      SkipTo(address, text, repl, i + 1, e);
      assert text[i..e] == [text[i]] + text[i + 1..e];
      Associative([text[i]], text[i + 1..e], ReplaceFrom(address, text, repl, e));
    }
  }

  lemma StartsInLine(address: string, text: string, b: nat, e: nat, x: nat)
    requires LineAt(text, b, e) && Free(address, '\n') && b <= x <= e
    ensures StartsAt(address, text, x) <==> x == b && IsEntry(address, text[b..e])
  {
    if StartsAt(address, text, x) {
      var j: nat :| x <= j <= |text| && Match(Go, EntryRe(address), text, x, j);
      var k := EntryCuts(address, text, x, j);
      assert x == b;
      MatchesAreEntries(address, text, b, j, e);
    }
    if x == b && IsEntry(address, text[b..e]) {
      EntryMatches(address, text, b, e);
    }
  }

  lemma LongestIsLine(address: string, text: string, b: nat, e: nat)
    requires LineAt(text, b, e) && Free(address, '\n') && IsEntry(address, text[b..e])
    ensures StartsAt(address, text, b) && LongestUpTo(address, text, b, |text|) == e
  {
    EntryMatches(address, text, b, e);
    MatchesAreEntries(address, text, b, LongestUpTo(address, text, b, |text|), e);
  }

  /** One line: replaced as a whole when it is an entry, copied otherwise. */
  lemma LineReplaced(address: string, text: string, repl: string, b: nat, e: nat)
    requires LineAt(text, b, e) && Free(address, '\n')
    ensures ReplaceFrom(address, text, repl, b)
            == (if IsEntry(address, text[b..e]) then repl else text[b..e]) + ReplaceFrom(address, text, repl, e)
  {
    if IsEntry(address, text[b..e]) {
      LongestIsLine(address, text, b, e);
    } else {
      forall x | b <= x < e ensures !StartsAt(address, text, x) {
        StartsInLine(address, text, b, e, x);
      }
      SkipTo(address, text, repl, b, e);
    }
  }

  lemma NewlineCopied(address: string, text: string, repl: string, b: nat, e: nat)
    requires LineAt(text, b, e) && Free(address, '\n') && e < |text|
    ensures ReplaceFrom(address, text, repl, e) == "\n" + ReplaceFrom(address, text, repl, e + 1)
  {
    StartsInLine(address, text, b, e, e);
    assert !(b == e && IsEntry(address, text[b..e]));
  }

  lemma MatchedLine(address: string, test: string -> bool, repl: string, text: string, b: nat, e: nat)
    requires Free(address, '\n') && (forall line :: test(line) == IsEntry(address, line)) && LineAt(text, b, e)
    ensures ReplaceFrom(address, text, repl, b) ==
            if e == |text| then Piece(test, repl, text, b, e)
            else Piece(test, repl, text, b, e) + "\n" + ReplaceFrom(address, text, repl, e + 1)
  {
    LineReplaced(address, text, repl, b, e);
    if e < |text| {
      NewlineCopied(address, text, repl, b, e);
      Associative(Piece(test, repl, text, b, e), "\n", ReplaceFrom(address, text, repl, e + 1));
    }
  }

  lemma ReplacingIsLineWise(address: string, test: string -> bool, repl: string, text: string,
                            f: nat -> string, piece: (nat, nat) -> string)
    requires Free(address, '\n') && forall line :: test(line) == IsEntry(address, line)
    requires forall i: nat :: i <= |text| ==> f(i) == ReplaceFrom(address, text, repl, i)
    requires forall b, e :: piece(b, e) == Piece(test, repl, text, b, e)
    ensures LineWise(text, f, piece)
  {
    forall b: nat, e: nat | LineAt(text, b, e)
      ensures f(b) == if e == |text| then piece(b, e) else piece(b, e) + "\n" + f(e + 1)
    {
      MatchedLine(address, test, repl, text, b, e);
    }
  }

  /** Replacing every match of the pattern replaces exactly the entry lines. */
  lemma ReplaceIsByLines(address: string, text: string, repl: string, test: string -> bool)
    requires Free(address, '\n') && forall line :: test(line) == IsEntry(address, line)
    ensures ReplaceAll(address, text, repl) == Whole(test, repl, text)
  {
    var f := (i: nat) => if i <= |text| then ReplaceFrom(address, text, repl, i) else "";
    var g := (i: nat) => if i <= |text| then Whole(test, repl, text[i..]) else "";
    var piece := (b: nat, e: nat) => Piece(test, repl, text, b, e);
    ReplacingIsLineWise(address, test, repl, text, f, piece);
    WholeIsLineWise(test, repl, text, g, piece);
    LineWiseUnique(text, f, g, piece, 0);
    assert text[0..] == text;
  }

  // ---------- the rewrite ----------

  ghost predicate IsBootstrap(line: string) {
    IsEntry(LOOPBACK, line)
  }

  function Bootstrap(h: string): string {
    LOOPBACK + "\t" + h + ".local " + h
  }

  lemma EntryLine(address: string, h: string, rest: string)
    requires IsHost(h)
    ensures IsEntry(address, address + "\t" + h + rest) && !IsEntry(address, "")
  {
    var line := address + "\t" + h + rest;
    assert line[..|address|] == address;
    assert line[|address|] == '\t' && line[|address| + 1] == h[0];
    assert HostAt(address, line, |address| + 1);
  }

  lemma BootstrapLine(h: string)
    requires IsHost(h)
    ensures IsBootstrap(Bootstrap(h)) && !IsBootstrap("") && Free(Bootstrap(h), '\n')
  {
    EntryLine(LOOPBACK, h, ".local " + h);
    assert Bootstrap(h) == LOOPBACK + "\t" + h + (".local " + h);
    assert Free(h, '\n');
  }

  /** The new content of the file. */
  ghost function Rewrite(h: string, text: string): string {
    Rewritten(IsBootstrap, Bootstrap(h), text)
  }

  /** The new content is what the Go code computes with its pattern: every match replaced,
      and the line appended on a line of its own when the result has no match. */
  lemma RewriteIsReplacement(h: string, text: string)
    ensures var r := ReplaceAll(LOOPBACK, text, Bootstrap(h));
            Rewrite(h, text) == if GoAccepts(EntryRe(LOOPBACK), r) then r else Closed(r) + Bootstrap(h) + "\n"
  {
    var r := ReplaceAll(LOOPBACK, text, Bootstrap(h));
    assert Free(LOOPBACK, '\n');
    ReplaceIsByLines(LOOPBACK, text, Bootstrap(h), IsBootstrap);
    MatchStringExact(LOOPBACK, r);
    AnyLine(Split(r, '\n'));
  }

  lemma AnyLine(lines: seq<string>)
    ensures Any(IsBootstrap, lines) <==> exists line :: line in lines && IsEntry(LOOPBACK, line)
  {
    if exists line :: line in lines && IsEntry(LOOPBACK, line) {
      var line :| line in lines && IsEntry(LOOPBACK, line);
      var k :| 0 <= k < |lines| && lines[k] == line;
      assert IsBootstrap(lines[k]);
    }
  }

  /** A later rewrite absorbs an earlier one, whatever the file held; rewriting again for
      the same host changes nothing. */
  lemma RewriteAbsorbs(h1: string, h2: string, text: string)
    requires IsHost(h1) && IsHost(h2)
    ensures Rewrite(h2, Rewrite(h1, text)) == Rewrite(h2, text)
  {
    BootstrapLine(h1);
    BootstrapLine(h2);
    RewrittenAbsorbs(IsBootstrap, Bootstrap(h1), Bootstrap(h2), text);
  }

  /** Every line of the file that is no bootstrap line stays in place, byte for byte. */
  lemma OtherLinesKept(h: string, text: string, k: nat)
    requires IsHost(h) && k < |Split(text, '\n')| && !IsBootstrap(Split(text, '\n')[k])
    requires k < |Split(text, '\n')| - 1 || Split(text, '\n')[k] != ""
    ensures k < |Split(Rewrite(h, text), '\n')| && Split(Rewrite(h, text), '\n')[k] == Split(text, '\n')[k]
  {
    BootstrapLine(h);
    OthersKept(IsBootstrap, Bootstrap(h), text, k);
  }

  /** There is a bootstrap line, and every bootstrap line names the host. */
  lemma BootstrapNamesHost(h: string, text: string)
    requires IsHost(h)
    ensures exists line :: line in Split(Rewrite(h, text), '\n') && IsBootstrap(line)
    ensures forall line :: line in Split(Rewrite(h, text), '\n') && IsBootstrap(line) ==> line == Bootstrap(h)
  {
    BootstrapLine(h);
    MatchingLines(IsBootstrap, Bootstrap(h), text);
    var ls := Split(Rewrite(h, text), '\n');
    assert Any(IsBootstrap, ls);
    var k :| 0 <= k < |ls| && IsBootstrap(ls[k]);
    assert ls[k] in ls;
  }
}
