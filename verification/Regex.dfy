/** Regular expressions with anchors, their matches as spans of a text, and the two
    dialects of `$`: Python's also holds before one trailing newline. */
module Regex {

  datatype Class =
    | Letter | Digit | Alnum | AlnumDash | AlnumUnderscore | AlnumDotDash
    | Blank | NonSpace | NotNewline | AnyChar | Only(c: char)

  predicate IsLetter(c: char) { 'A' <= c <= 'Z' || 'a' <= c <= 'z' }
  predicate IsDigit(c: char) { '0' <= c <= '9' }
  predicate IsAlnum(c: char) { IsLetter(c) || IsDigit(c) }

  predicate In(k: Class, c: char) {
    match k
    case Letter => IsLetter(c)
    case Digit => IsDigit(c)
    case Alnum => IsAlnum(c)
    case AlnumDash => IsAlnum(c) || c == '-'
    case AlnumUnderscore => IsAlnum(c) || c == '_'
    case AlnumDotDash => IsAlnum(c) || c == '.' || c == '-'
    case Blank => c == ' ' || c == '\t'
    case NonSpace => c !in "\t\n\U{c}\r "
    case NotNewline => c != '\n'
    case AnyChar => true
    case Only(x) => c == x
  }

  datatype Regex =
    | Empty
    | Char(k: Class)
    | Cat(a: Regex, b: Regex)
    | Alt(a: Regex, b: Regex)
    | Star(a: Regex)
    | Begin
    | BeginLine
    | End

  datatype Dialect = Python | Go

  /** Names the position at which a match is cut in two; it always holds. */
  predicate Cut(m: nat) { true }

  /** r matches the span of s from i to j. */
  ghost predicate Match(d: Dialect, r: Regex, s: string, i: nat, j: nat)
    requires i <= j <= |s|
    decreases r, j - i
  {
    match r
    case Empty => i == j
    case Char(k) => j == i + 1 && In(k, s[i])
    case Cat(a, b) => exists m: nat {:trigger Cut(m)} :: Cut(m) && i <= m <= j && Match(d, a, s, i, m) && Match(d, b, s, m, j)
    case Alt(a, b) => Match(d, a, s, i, j) || Match(d, b, s, i, j)
    case Star(a) => i == j || exists m: nat {:trigger Cut(m)} :: Cut(m) && i < m <= j && Match(d, a, s, i, m) && Match(d, r, s, m, j)
    case Begin => i == j == 0
    case BeginLine => i == j && (i == 0 || s[i - 1] == '\n')
    case End => i == j && (i == |s| || (d.Python? && i == |s| - 1 && s[i] == '\n'))
  }

  lemma MatchCat(d: Dialect, a: Regex, b: Regex, s: string, i: nat, m: nat, j: nat)
    requires i <= m <= j <= |s| && Match(d, a, s, i, m) && Match(d, b, s, m, j)
    ensures Match(d, Cat(a, b), s, i, j)
  {
    assert Cut(m);
  }

  lemma CutCat(d: Dialect, a: Regex, b: Regex, s: string, i: nat, j: nat) returns (m: nat)
    requires i <= j <= |s| && Match(d, Cat(a, b), s, i, j)
    ensures i <= m <= j && Match(d, a, s, i, m) && Match(d, b, s, m, j)
  {
    m :| Cut(m) && i <= m <= j && Match(d, a, s, i, m) && Match(d, b, s, m, j);
  }

  lemma MatchStar(d: Dialect, a: Regex, s: string, i: nat, m: nat, j: nat)
    requires i < m <= j <= |s| && Match(d, a, s, i, m) && Match(d, Star(a), s, m, j)
    ensures Match(d, Star(a), s, i, j)
  {
    assert Cut(m);
  }

  lemma CutStar(d: Dialect, a: Regex, s: string, i: nat, j: nat) returns (m: nat)
    requires i < j <= |s| && Match(d, Star(a), s, i, j)
    ensures i < m <= j && Match(d, a, s, i, m) && Match(d, Star(a), s, m, j)
  {
    m :| Cut(m) && i < m <= j && Match(d, a, s, i, m) && Match(d, Star(a), s, m, j);
  }

  function Opt(r: Regex): Regex { Alt(Empty, r) }
  function Plus(r: Regex): Regex { Cat(r, Star(r)) }
  /** r{0,n} */
  function UpTo(r: Regex, n: nat): Regex {
    if n == 0 then Empty else Opt(Cat(r, UpTo(r, n - 1)))
  }
  /** ^body$ */
  function Anchored(body: Regex): Regex { Cat(Begin, Cat(body, End)) }

  /** re.match of Python: some match at the start of the text. */
  ghost predicate PyAccepts(r: Regex, s: string) {
    exists j: nat :: j <= |s| && Match(Python, r, s, 0, j)
  }

  /** MatchString of Go: some match anywhere in the text. */
  ghost predicate GoAccepts(r: Regex, s: string) {
    exists i: nat, j: nat :: i <= j <= |s| && Match(Go, r, s, i, j)
  }

  predicate AnchorFree(r: Regex) {
    match r
    case Begin => false
    case BeginLine => false
    case End => false
    case Cat(a, b) => AnchorFree(a) && AnchorFree(b)
    case Alt(a, b) => AnchorFree(a) && AnchorFree(b)
    case Star(a) => AnchorFree(a)
    case _ => true
  }

  /** The span of s from i to j stands in t at offset o. */
  predicate Same(s: string, i: nat, j: nat, t: string, o: int) {
    i <= j <= |s| && 0 <= i + o && j + o <= |t| && forall n :: i <= n < j ==> s[n] == t[n + o]
  }

  lemma SameParts(s: string, i: nat, m: nat, j: nat, t: string, o: int)
    requires Same(s, i, j, t, o) && i <= m <= j
    ensures Same(s, i, m, t, o) && Same(s, m, j, t, o)
  {
  }

  /** Without anchors a match depends neither on the dialect nor on what surrounds it. */
  lemma {:induction false} Local(d: Dialect, r: Regex, s: string, i: nat, j: nat, d': Dialect, t: string, o: int)
    requires AnchorFree(r) && Same(s, i, j, t, o) && Match(d, r, s, i, j)
    ensures Match(d', r, t, i + o, j + o)
    decreases r, j - i, 3
  {
    match r {
      case Empty =>
      case Char(k) =>
        assert s[i] == t[i + o];
      case Cat(a, b) =>
        LocalCat(d, a, b, s, i, j, d', t, o);
      case Alt(a, b) =>
        if Match(d, a, s, i, j) {
          Local(d, a, s, i, j, d', t, o);
        } else {
          Local(d, b, s, i, j, d', t, o);
        }
      case Star(a) =>
        if i < j {
          LocalStar(d, a, s, i, j, d', t, o);
        }
    }
  }

  lemma {:induction false} LocalCat(d: Dialect, a: Regex, b: Regex, s: string, i: nat, j: nat, d': Dialect, t: string, o: int)
    requires AnchorFree(a) && AnchorFree(b) && Same(s, i, j, t, o) && Match(d, Cat(a, b), s, i, j)
    ensures Match(d', Cat(a, b), t, i + o, j + o)
    decreases Cat(a, b), j - i, 2
  {
    var m := LocalCut(d, a, b, s, i, j, d', t, o);
    MatchCat(d', a, b, t, i + o, m + o, j + o);
  }

  lemma {:induction false} LocalCut(d: Dialect, a: Regex, b: Regex, s: string, i: nat, j: nat, d': Dialect, t: string, o: int)
      returns (m: nat)
    requires AnchorFree(a) && AnchorFree(b) && Same(s, i, j, t, o) && Match(d, Cat(a, b), s, i, j)
    ensures i <= m <= j && Match(d', a, t, i + o, m + o) && Match(d', b, t, m + o, j + o)
    decreases Cat(a, b), j - i, 1
  {
    m := CutCat(d, a, b, s, i, j);
    LocalPair(d, Cat(a, b), a, b, s, i, m, j, d', t, o);
  }

  lemma {:induction false} LocalStar(d: Dialect, a: Regex, s: string, i: nat, j: nat, d': Dialect, t: string, o: int)
    requires AnchorFree(a) && Same(s, i, j, t, o) && i < j && Match(d, Star(a), s, i, j)
    ensures Match(d', Star(a), t, i + o, j + o)
    decreases Star(a), j - i, 2
  {
    var m := LocalStep(d, a, s, i, j, d', t, o);
    MatchStar(d', a, t, i + o, m + o, j + o);
  }

  lemma {:induction false} LocalStep(d: Dialect, a: Regex, s: string, i: nat, j: nat, d': Dialect, t: string, o: int)
      returns (m: nat)
    requires AnchorFree(a) && Same(s, i, j, t, o) && i < j && Match(d, Star(a), s, i, j)
    ensures i < m <= j && Match(d', a, t, i + o, m + o) && Match(d', Star(a), t, m + o, j + o)
    decreases Star(a), j - i, 1
  {
    m := CutStar(d, a, s, i, j);
    LocalPair(d, Star(a), a, Star(a), s, i, m, j, d', t, o);
  }

  /** The two parts of a cut match, each smaller than the whole. */
  lemma {:induction false} LocalPair(d: Dialect, r: Regex, a: Regex, b: Regex, s: string, i: nat, m: nat, j: nat, d': Dialect, t: string, o: int)
    requires AnchorFree(a) && AnchorFree(b) && Same(s, i, j, t, o)
    requires a < r && i <= m <= j && (b < r || (b == r && i < m))
    requires Match(d, a, s, i, m) && Match(d, b, s, m, j)
    ensures Match(d', a, t, i + o, m + o) && Match(d', b, t, m + o, j + o)
    decreases r, j - i, 0
  {
    SameParts(s, i, m, j, t, o);
    Local(d, a, s, i, m, d', t, o);
    Local(d, b, s, m, j, d', t, o);
  }

  lemma AnchoredSpan(d: Dialect, body: Regex, s: string, i: nat, j: nat)
    requires i <= j <= |s|
    ensures Match(d, Anchored(body), s, i, j) <==> i == 0 && Match(d, body, s, 0, j) && Match(d, End, s, j, j)
  {
    if Match(d, Anchored(body), s, i, j) {
      var m := CutCat(d, Begin, Cat(body, End), s, i, j);
      var e := CutCat(d, body, End, s, m, j);
    }
    if i == 0 && Match(d, body, s, 0, j) && Match(d, End, s, j, j) {
      MatchCat(d, body, End, s, 0, j, j);
      MatchCat(d, Begin, Cat(body, End), s, 0, 0, j);
    }
  }

  lemma GoAnchored(body: Regex, s: string)
    ensures GoAccepts(Anchored(body), s) <==> Match(Go, body, s, 0, |s|)
  {
    forall i: nat, j: nat | i <= j <= |s|
      ensures Match(Go, Anchored(body), s, i, j) <==> i == 0 && j == |s| && Match(Go, body, s, 0, |s|)
    {
      AnchoredSpan(Go, body, s, i, j);
    }
    AnchoredSpan(Go, body, s, 0, |s|);
  }

  lemma PyAnchored(body: Regex, s: string)
    ensures PyAccepts(Anchored(body), s) <==>
            || Match(Python, body, s, 0, |s|)
            || (s != "" && s[|s| - 1] == '\n' && Match(Python, body, s, 0, |s| - 1))
  {
    forall j: nat | j <= |s|
      ensures Match(Python, Anchored(body), s, 0, j) <==>
              Match(Python, body, s, 0, j) && (j == |s| || (j == |s| - 1 && s[j] == '\n'))
    {
      AnchoredSpan(Python, body, s, 0, j);
    }
  }

  /** The exact relation of the two dialects on an anchored pattern: Python accepts what
      Go accepts, and also that text followed by one newline. */
  lemma PythonVersusGo(body: Regex, s: string)
    requires AnchorFree(body)
    ensures PyAccepts(Anchored(body), s) <==>
            || GoAccepts(Anchored(body), s)
            || (s != "" && s[|s| - 1] == '\n' && GoAccepts(Anchored(body), s[..|s| - 1]))
  {
    GoAnchored(body, s);
    PyAnchored(body, s);
    assert s[..|s|] == s;
    PrefixMatch(body, s, |s|);
    if s != "" {
      GoAnchored(body, s[..|s| - 1]);
      PrefixMatch(body, s, |s| - 1);
    }
  }

  lemma PrefixMatch(body: Regex, s: string, e: nat)
    requires AnchorFree(body) && e <= |s|
    ensures Match(Python, body, s, 0, e) <==> Match(Go, body, s[..e], 0, e)
  {
    if Match(Python, body, s, 0, e) {
      Local(Python, body, s, 0, e, Go, s[..e], 0);
    }
    if Match(Go, body, s[..e], 0, e) {
      Local(Go, body, s[..e], 0, e, Python, s, 0);
    }
  }

  // ---------- repetitions of one character class ----------

  predicate All(k: Class, s: string, i: nat, j: nat)
    requires i <= j <= |s|
  {
    forall n :: i <= n < j ==> In(k, s[n])
  }

  lemma {:induction false} StarClass(d: Dialect, k: Class, s: string, i: nat, j: nat)
    requires i <= j <= |s|
    ensures Match(d, Star(Char(k)), s, i, j) <==> All(k, s, i, j)
    decreases j - i
  {
    if i == j {
    } else {
      StarClass(d, k, s, i + 1, j);
      if Match(d, Star(Char(k)), s, i, j) {
        var m := CutStar(d, Char(k), s, i, j);
      }
      if All(k, s, i, j) {
        MatchStar(d, Char(k), s, i, i + 1, j);
      }
    }
  }

  lemma PlusClass(d: Dialect, k: Class, s: string, i: nat, j: nat)
    requires i <= j <= |s|
    ensures Match(d, Plus(Char(k)), s, i, j) <==> i < j && All(k, s, i, j)
  {
    if i < j {
      StarClass(d, k, s, i + 1, j);
      if All(k, s, i, j) {
        MatchCat(d, Char(k), Star(Char(k)), s, i, i + 1, j);
      }
    }
    if Match(d, Plus(Char(k)), s, i, j) {
      var m := CutCat(d, Char(k), Star(Char(k)), s, i, j);
    }
  }

  lemma {:induction false} UpToClass(d: Dialect, k: Class, n: nat, s: string, i: nat, j: nat)
    requires i <= j <= |s|
    ensures Match(d, UpTo(Char(k), n), s, i, j) <==> j - i <= n && All(k, s, i, j)
    decreases n
  {
    if n == 0 {
    } else {
      var rest := UpTo(Char(k), n - 1);
      if i < j {
        UpToClass(d, k, n - 1, s, i + 1, j);
        if j - i <= n && All(k, s, i, j) {
          MatchCat(d, Char(k), rest, s, i, i + 1, j);
        }
        if Match(d, Cat(Char(k), rest), s, i, j) {
          var m := CutCat(d, Char(k), rest, s, i, j);
        }
        assert Match(d, UpTo(Char(k), n), s, i, j) <==> Match(d, Cat(Char(k), rest), s, i, j);
      }
    }
  }
}
