/** Values recorded in the state directory, and the `ostree:<repo>#<ref>` reference. */
module OstreeBase {
  import opened Text

  // ---------- one recorded line ----------

  /** read_text turns CR LF and CR into a newline. */
  function UniversalNewlines(s: string): string {
    if s == "" then ""
    else if s[0] == '\r' then "\n" + UniversalNewlines(if |s| > 1 && s[1] == '\n' then s[2..] else s[1..])
    else [s[0]] + UniversalNewlines(s[1..])
  }

  /** State.write. */
  function FileOf(value: string): string { value + "\n" }

  /** State.read of a file; an absent file is empty. */
  function ReadBack(file: Option<string>): string {
    if file.Some? then Strip(UniversalNewlines(file.value)) else ""
  }

  /** A value that the state file keeps: no carriage return, no blank at either end. */
  predicate Clean(value: string) {
    Free(value, '\r') && Trimmed(value)
  }

  lemma {:induction false} NewlinesFree(s: string)
    ensures Free(UniversalNewlines(s), '\r')
    ensures Free(s, '\r') ==> UniversalNewlines(s) == s
    decreases |s|
  {
    if s == "" {
    } else {
      if s[0] == '\r' {
        NewlinesFree(if |s| > 1 && s[1] == '\n' then s[2..] else s[1..]);
      } else {
        NewlinesFree(s[1..]);
        assert s == [s[0]] + s[1..];
      }
    }
  }

  lemma {:induction false} LStripAppend(s: string, t: string)
    ensures LStrip(s + t) == if LStrip(s) == "" then LStrip(t) else LStrip(s) + t
  {
    if s == "" {
      assert s + t == t;
    } else if IsSpace(s[0]) {
      TailAppend(s, t);
      LStripAppend(s[1..], t);
    }
  }

  lemma NewlineIsSpace()
    ensures IsSpace('\n') && LStrip("\n") == ""
  {
    assert "\n"[1..] == "";
  }

  lemma RStripNewline(l: string)
    ensures RStrip(l + "\n") == RStrip(l)
  {
    NewlineIsSpace();
    var t := l + "\n";
    assert t[|t| - 1] == '\n' && t[..|t| - 1] == l;
  }

  lemma StripNewline(s: string)
    ensures Strip(s + "\n") == Strip(s)
  {
    LStripAppend(s, "\n");
    NewlineIsSpace();
    RStripNewline(LStrip(s));
  }

  /** A recorded value is read back unchanged exactly when it is clean. */
  lemma ReadBackExactly(value: string)
    ensures ReadBack(Some(FileOf(value))) == value <==> Clean(value)
  {
    NewlinesFree(FileOf(value));
    StripNewline(value);
    StripIdentity(value);
    if Free(value, '\r') {
      assert Free(FileOf(value), '\r');
    }
    if ReadBack(Some(FileOf(value))) == value {
      StripFree(UniversalNewlines(FileOf(value)));
    }
  }

  lemma StripFree(s: string)
    requires Free(s, '\r')
    ensures Free(Strip(s), '\r')
  {
    var l := LStrip(s);
    assert forall c :: c in Strip(s) ==> c in l;
    assert forall c :: c in l ==> c in s;
  }

  lemma StripTrimmed(s: string)
    ensures Trimmed(Strip(s))
  {
    var l := LStrip(s);
    var r := RStrip(l);
    if r != "" {
      assert r[0] == l[0];
    }
  }

  /** What is read is always clean. */
  lemma ReadIsClean(file: Option<string>)
    ensures Clean(ReadBack(file))
  {
    if file.Some? {
      NewlinesFree(file.value);
      StripFree(UniversalNewlines(file.value));
      StripTrimmed(UniversalNewlines(file.value));
    }
  }

  // ---------- paths ----------

  /** The root of a POSIX path: two slashes are kept, three or more are one. */
  function Root(p: string): string {
    if p == "" || p[0] != '/' then ""
    else if |p| > 1 && p[1] == '/' && !(|p| > 2 && p[2] == '/') then "//"
    else "/"
  }

  function Kept(parts: seq<string>): seq<string> {
    if parts == [] then []
    else (if parts[0] == "" || parts[0] == "." then [] else [parts[0]]) + Kept(parts[1..])
  }

  /** str(Path(p)). */
  function Normal(p: string): string {
    var parts := Kept(Split(p[|Root(p)|..], '/'));
    if Root(p) == "" && parts == [] then "." else Root(p) + Join(parts, '/')
  }

  predicate Part(s: string) {
    s != "" && s != "." && Free(s, '/')
  }

  lemma {:induction false} KeptParts(parts: seq<string>)
    requires forall k :: 0 <= k < |parts| ==> Free(parts[k], '/')
    ensures forall k :: 0 <= k < |Kept(parts)| ==> Part(Kept(parts)[k])
    ensures (forall k :: 0 <= k < |parts| ==> Part(parts[k])) ==> Kept(parts) == parts
  {
    if parts == [] {
    } else {
      KeptParts(parts[1..]);
    }
  }

  lemma JoinStart(parts: seq<string>)
    requires parts != [] && forall k :: 0 <= k < |parts| ==> Part(parts[k])
    ensures Join(parts, '/') != "" && Join(parts, '/')[0] != '/' && Join(parts, '/') != "."
  {
    var j := Join(parts, '/');
    assert j[0] == parts[0][0];
    assert |parts| > 1 ==> |j| > |parts[0]|;
  }

  lemma RootOf(root: string, j: string)
    requires root in {"", "/", "//"} && (j == "" || j[0] != '/')
    ensures Root(root + j) == root && (root + j)[|root|..] == j
  {
    assert root + j != "" && root != "" ==> (root + j)[0] == '/';
  }

  lemma PartsOf(parts: seq<string>)
    requires forall k :: 0 <= k < |parts| ==> Part(parts[k])
    ensures Kept(Split(Join(parts, '/'), '/')) == parts
    ensures Join(parts, '/') == "" || Join(parts, '/')[0] != '/'
  {
    if parts != [] {
      JoinStart(parts);
      SplitJoin(parts, '/');
      KeptParts(parts);
    }
  }

  /** The printed path has the same root and parts. */
  lemma NormalParts(root: string, parts: seq<string>)
    requires root in {"", "/", "//"} && forall k :: 0 <= k < |parts| ==> Part(parts[k])
    requires root != "" || parts != []
    ensures Normal(root + Join(parts, '/')) == root + Join(parts, '/')
  {
    PartsOf(parts);
    RootOf(root, Join(parts, '/'));
  }

  lemma DotIsNormal()
    ensures Normal(".") == "."
  {
    assert "."[0..] == "." && Find(".", '/') == 1 && "."[..1] == ".";
    assert Split(".", '/') == ["."];
    assert ["."][1..] == [];
  }

  /** Normalising twice is normalising once, and never gives an empty path. */
  lemma NormalIdempotent(p: string)
    ensures Normal(Normal(p)) == Normal(p) && Normal(p) != ""
  {
    var parts := Kept(Split(p[|Root(p)|..], '/'));
    KeptParts(Split(p[|Root(p)|..], '/'));
    if Root(p) == "" && parts == [] {
      DotIsNormal();
    } else {
      NormalParts(Root(p), parts);
      if parts != [] { JoinStart(parts); }
    }
  }

  /** Normalising drops empty parts and single dots and keeps every other part, `..`
      included, in order, after a root of one or two slashes. */
  lemma NormalExactly(root: string, parts: seq<string>)
    requires root in {"", "/", "//"} && forall k :: 0 <= k < |parts| ==> Free(parts[k], '/')
    requires parts != [] && parts[0] != ""
    ensures var kept := Kept(parts);
            Normal(root + Join(parts, '/')) == if root == "" && kept == [] then "." else root + Join(kept, '/')
  {
    JoinHead(parts);
    RootOf(root, Join(parts, '/'));
    SplitJoin(parts, '/');
  }

  lemma JoinHead(parts: seq<string>)
    requires parts != [] && parts[0] != "" && Free(parts[0], '/')
    ensures Join(parts, '/') != "" && Join(parts, '/')[0] != '/'
  {
    assert Join(parts, '/')[0] == parts[0][0];
  }

  /** Three slashes at the root are one. */
  lemma ManySlashes(p: string)
    requires p == "" || p[0] != '/'
    ensures Normal("/" + ("/" + ("/" + p))) == Normal("/" + p)
  {
    var one := "/" + p;
    SlashRoot("/" + ("/" + one), "/" + one);
    SlashRoot(one, p);
    EmptyPart(one);
    EmptyPart(p);
  }

  lemma SlashRoot(p: string, rest: string)
    requires p == "/" + rest && (rest == "" || rest[0] != '/' || (|rest| > 1 && rest[1] == '/'))
    ensures Root(p) == "/" && p[1..] == rest
    ensures Normal(p) == "/" + Join(Kept(Split(rest, '/')), '/')
  {
    assert p[0] == '/' && (|p| > 1 ==> p[1] == rest[0]) && (|p| > 2 ==> p[2] == rest[1]);
  }

  lemma EmptyPart(p: string)
    ensures Kept(Split("/" + p, '/')) == Kept(Split(p, '/'))
  {
    assert "" + ['/'] + p == "/" + p;
    SplitCons("", '/', p);
    assert ([""] + Split(p, '/'))[1..] == Split(p, '/');
  }

  /** What is kept of a list of parts. */
  lemma {:induction false} KeptExactly(a: seq<string>, b: seq<string>, part: string)
    ensures Kept(a + b) == Kept(a) + Kept(b)
    ensures Kept([part]) == if part == "" || part == "." then [] else [part]
  {
    assert [part][1..] == [];
    if a == [] {
      assert a + b == b;
    } else {
      TailAppend(a, b);
      KeptExactly(a[1..], b, part);
      Associative(if a[0] == "" || a[0] == "." then [] else [a[0]], Kept(a[1..]), Kept(b));
    }
  }

  // ---------- the reference ----------

  const LABEL := "ostree"

  function Print(repo: string, ref: string): string {
    LABEL + ":" + repo + "#" + ref
  }

  /** rest.rpartition("#"), when both sides are there. */
  function CutRef(rest: string): Option<(string, string)> {
    var j := FindLast(rest, '#');
    if j <= 0 || j == |rest| - 1 then None else Some((rest[..j], rest[j + 1..]))
  }

  /** _parse_ostree_base: the label before the first colon, the ref after the last `#`. */
  function Parse(base: string): Option<(string, string)> {
    ParseLabelled(LABEL, base)
  }

  function ParseLabelled(kind: string, base: string): Option<(string, string)> {
    match AfterLabel(kind, base)
    case None => None
    case Some(rest) =>
      match CutRef(rest)
      case None => None
      case Some((repo, ref)) => Some((Normal(repo), ref))
  }

  /** The part after the first colon, when the part before it is the label. */
  function AfterLabel(kind: string, base: string): Option<string> {
    var i := Find(base, ':');
    if base[..i] != kind then None else Some(if i < |base| then base[i + 1..] else "")
  }

  lemma ParsePrinted(repo: string, ref: string)
    requires Free(ref, '#')
    ensures Parse(Print(repo, ref)) == if repo == "" || ref == "" then None else Some((Normal(repo), ref))
  {
    var rest := repo + ['#'] + ref;
    var base := Print(repo, ref);
    assert base == LABEL + [':'] + rest;
    FirstSeparator(LABEL, ':', rest);
    assert base[..|LABEL|] == LABEL && base[|LABEL| + 1..] == rest;
    CutPrinted(repo, ref);
  }

  lemma CutPrinted(repo: string, ref: string)
    requires Free(ref, '#')
    ensures CutRef(repo + ['#'] + ref) == if repo == "" || ref == "" then None else Some((repo, ref))
  {
    var rest := repo + ['#'] + ref;
    LastSeparator(repo, '#', ref);
    assert rest[..|repo|] == repo && rest[|repo| + 1..] == ref;
  }

  lemma CutRefFree(rest: string)
    requires CutRef(rest).Some?
    ensures Free(CutRef(rest).value.1, '#') && CutRef(rest).value.1 != ""
  {
  }

  lemma ParsedRefFree(base: string)
    requires Parse(base).Some?
    ensures var (repo, ref) := Parse(base).value; Free(ref, '#') && ref != "" && Normal(repo) == repo && repo != ""
  {
    var cut := ParsedCut(LABEL, base);
    CutRefFree(cut);
    NormalIdempotent(CutRef(cut).value.0);
  }

  lemma ParsedCut(kind: string, base: string) returns (rest: string)
    requires ParseLabelled(kind, base).Some?
    ensures CutRef(rest).Some?
    ensures ParseLabelled(kind, base).value == (Normal(CutRef(rest).value.0), CutRef(rest).value.1)
  {
    rest := AfterLabel(kind, base).value;
  }

  /** The parser inverts the printer exactly for a normalised repository, whatever `#`
      or `:` it holds, and a non-empty ref without `#`. */
  lemma ParseInvertsPrint(repo: string, ref: string)
    ensures Parse(Print(repo, ref)) == Some((repo, ref)) <==> Normal(repo) == repo && ref != "" && Free(ref, '#')
  {
    if Normal(repo) == repo && ref != "" && Free(ref, '#') {
      NormalIdempotent(repo);
      ParsePrinted(repo, ref);
    }
    if Parse(Print(repo, ref)) == Some((repo, ref)) {
      ParsedRefFree(Print(repo, ref));
    }
  }

  /** The ref a successful apt2ostree derive commits. */
  function DerivedRef(setName: string): string {
    "install/nvidia/" + setName + "/derived"
  }

  lemma DerivedRefFree(setName: string)
    requires Free(setName, '#')
    ensures Free(DerivedRef(setName), '#') && DerivedRef(setName) != ""
  {
    assert Free("install/nvidia/", '#') && Free("/derived", '#');
  }

  /** The recorded text of a derived reference. */
  lemma PrintedFile(repo: string, name: string)
    ensures FileOf(Print(repo, DerivedRef(name))) == "ostree:" + repo + "#" + "install/nvidia/" + name + "/derived" + "\n"
    ensures FileOf("apt2ostree") == "apt2ostree\n"
  {
    assert LABEL + ":" == "ostree:" && "apt2ostree" + "\n" == "apt2ostree\n";
    Regrouped("ostree:" + repo + "#", "install/nvidia/", name, "/derived", "\n");
  }

  lemma Regrouped(head: string, a: string, b: string, c: string, end: string)
    ensures (head + (a + b + c)) + end == head + a + b + c + end
  {
  }

  /** The reference recorded by a derive on a valid base is a valid base: it names the
      same repository and the derived ref. */
  lemma DerivedIsBase(base: string, setName: string)
    requires Parse(base).Some? && Free(setName, '#')
    ensures var repo := Parse(base).value.0;
            Parse(Print(repo, DerivedRef(setName))) == Some((repo, DerivedRef(setName)))
  {
    ParsedRefFree(base);
    DerivedRefFree(setName);
    ParseInvertsPrint(Parse(base).value.0, DerivedRef(setName));
  }

  lemma {:induction false} NewlinesConcat(a: string, b: string)
    requires b != "" && b[0] != '\n'
    ensures UniversalNewlines(a + b) == UniversalNewlines(a) + UniversalNewlines(b)
    decreases |a|
  {
    if a == "" {
      assert a + b == b;
    } else {
      var n := if a[0] == '\r' && |a| > 1 && a[1] == '\n' then 2 else 1;
      NewlinesConcat(a[n..], b);
      SameHead(a, b, n);
      NewlinesStep(a, n);
      NewlinesStep(a + b, n);
      Associative(if a[0] == '\r' then "\n" else [a[0]], UniversalNewlines(a[n..]), UniversalNewlines(b));
    }
  }

  /** One step of the conversion takes n characters. */
  lemma NewlinesStep(s: string, n: nat)
    requires s != "" && n == if s[0] == '\r' && |s| > 1 && s[1] == '\n' then 2 else 1
    ensures UniversalNewlines(s) == (if s[0] == '\r' then "\n" else [s[0]]) + UniversalNewlines(s[n..])
  {
  }

  lemma SameHead(a: string, b: string, n: nat)
    requires 1 <= n <= 2 && n <= |a| && b != "" && b[0] != '\n'
    ensures (a + b)[n..] == a[n..] + b && (a + b)[0] == a[0]
    ensures (a + b)[1] == if |a| > 1 then a[1] else b[0]
  {
  }

  lemma PrintedNewlines(repo: string, ref: string)
    requires Free(ref, '\r')
    ensures UniversalNewlines(Print(repo, ref)) == Print(UniversalNewlines(repo), ref)
  {
    var head, tail := LABEL + ":", "#" + ref;
    assert Free(head, '\r') && Free(tail, '\r');
    assert Print(repo, ref) == (head + repo) + tail;
    NewlinesConcat(head + repo, tail);
    NewlinesFree(tail);
    PrefixNewlines(head, repo);
  }

  lemma PrintEnds(repo: string, ref: string)
    requires ref != "" && !IsSpace(ref[|ref| - 1])
    ensures Trimmed(Print(repo, ref)) && Print(repo, ref) != "" && Print(repo, ref)[|Print(repo, ref)| - 1] != '\r'
  {
    var p := Print(repo, ref);
    assert p[0] == 'o' && p[|p| - 1] == ref[|ref| - 1];
    assert !IsSpace('o') && IsSpace('\r');
  }

  /** What State.read gives for a recorded reference. */
  lemma ReadPrinted(repo: string, ref: string)
    requires Free(ref, '\r') && ref != "" && !IsSpace(ref[|ref| - 1])
    ensures ReadBack(Some(FileOf(Print(repo, ref)))) == Print(UniversalNewlines(repo), ref)
  {
    var printed, read := Print(repo, ref), Print(UniversalNewlines(repo), ref);
    PrintEnds(repo, ref);
    PrintEnds(UniversalNewlines(repo), ref);
    PrintedNewlines(repo, ref);
    NewlinesFileOf(printed);
    StripNewline(read);
    StripIdentity(read);
  }

  lemma DerivedRefEnds(setName: string)
    requires Free(setName, '\r')
    ensures Free(DerivedRef(setName), '\r') && !IsSpace(DerivedRef(setName)[|DerivedRef(setName)| - 1])
  {
    assert Free("install/nvidia/", '\r') && Free("/derived", '\r');
    assert DerivedRef(setName)[|DerivedRef(setName)| - 1] == 'd';
  }

  /** Also after a round through the state file the recorded reference is a valid base,
      and the same one exactly when the repository path has no carriage return. */
  lemma RecordedIsBase(base: string, setName: string)
    requires Parse(base).Some? && Free(setName, '#') && Free(setName, '\r')
    ensures var repo := Parse(base).value.0;
            var recorded := ReadBack(Some(FileOf(Print(repo, DerivedRef(setName)))));
            && Parse(recorded).Some? && Parse(recorded).value.1 == DerivedRef(setName)
            && (recorded == Print(repo, DerivedRef(setName)) <==> Free(repo, '\r'))
  {
    var repo, ref := Parse(base).value.0, DerivedRef(setName);
    ParsedRefFree(base);
    DerivedRefFree(setName);
    DerivedRefEnds(setName);
    ReadPrinted(repo, ref);
    NewlinesFree(repo);
    NewlinesNonEmpty(repo);
    ParsePrinted(UniversalNewlines(repo), ref);
    PrintInjective(UniversalNewlines(repo), repo, ref);
  }

  lemma NewlinesNonEmpty(s: string)
    ensures UniversalNewlines(s) == "" <==> s == ""
  {
  }

  lemma PrintInjective(a: string, b: string, ref: string)
    ensures Print(a, ref) == Print(b, ref) <==> a == b
  {
    var x, y, n := Print(a, ref), Print(b, ref), |LABEL| + 1;
    assert x[n..|x| - |ref| - 1] == a && y[n..|y| - |ref| - 1] == b;
  }

  lemma {:induction false} PrefixNewlines(a: string, b: string)
    requires Free(a, '\r')
    ensures UniversalNewlines(a + b) == a + UniversalNewlines(b)
  {
    if a == "" {
      assert a + b == b;
    } else {
      TailAppend(a, b);
      PrefixNewlines(a[1..], b);
      Associative([a[0]], a[1..], UniversalNewlines(b));
      assert a == [a[0]] + a[1..];
    }
  }

  lemma {:induction false} NewlinesFileOf(s: string)
    requires s != "" && s[|s| - 1] != '\r'
    ensures UniversalNewlines(FileOf(s)) == UniversalNewlines(s) + "\n"
    decreases |s|
  {
    if |s| == 1 {
      assert FileOf(s)[1..] == "\n";
      assert UniversalNewlines("\n") == "\n" by { assert "\n"[1..] == ""; }
    } else if s[0] == '\r' && s[1] == '\n' {
      if |s| == 2 {
        assert FileOf(s)[2..] == "\n" && s[2..] == "";
        assert UniversalNewlines("\n") == "\n" by { assert "\n"[1..] == ""; }
      } else {
        assert FileOf(s)[2..] == FileOf(s[2..]);
        NewlinesFileOf(s[2..]);
      }
    } else {
      assert FileOf(s)[1..] == FileOf(s[1..]);
      NewlinesFileOf(s[1..]);
    }
  }
}
