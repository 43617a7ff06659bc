/** The locale, XKB and hostname patterns of the installer and of fisherman, and
    scanners that decide exactly the languages of those patterns. */
module Shapes {
  import opened Regex

  // ---------- the patterns, as written in both languages ----------

  const UNDER := Opt(Cat(Char(Only('_')), Plus(Char(Alnum))))
  const MODIFIER := Opt(Cat(Char(Only('@')), Plus(Char(Alnum))))
  const CHARSET := Cat(Plus(Char(AlnumDash)), MODIFIER)

  /** [A-Za-z]{1,3}(_[A-Za-z0-9]+)?\.[A-Za-z0-9-]+(@[A-Za-z0-9]+)? */
  const LOCALE_BODY := Cat(Cat(Char(Letter), UpTo(Char(Letter), 2)), Cat(UNDER, Cat(Char(Only('.')), CHARSET)))
  const LOCALE_RE := Anchored(LOCALE_BODY)

  const XKB_NAME := Plus(Char(AlnumUnderscore))
  const XKB_TAIL := Cat(Char(Only(',')), XKB_NAME)
  /** [A-Za-z0-9_]+(,[A-Za-z0-9_]+)* */
  const XKB_BODY := Cat(XKB_NAME, Star(XKB_TAIL))
  const XKB_RE := Anchored(XKB_BODY)

  /** [a-zA-Z0-9]([a-zA-Z0-9-]{0,n}[a-zA-Z0-9])?; the pattern has n = 61. */
  function LabelInner(n: nat): Regex { Cat(UpTo(Char(AlnumDash), n), Char(Alnum)) }
  function LabelBody(n: nat): Regex { Cat(Char(Alnum), Opt(LabelInner(n))) }
  const LABEL_INNER_MAX: nat := 61
  const LABEL_BODY := LabelBody(LABEL_INNER_MAX)
  const LABEL_RE := Anchored(LABEL_BODY)

  /** [a-zA-Z0-9]([a-zA-Z0-9.-]*[a-zA-Z0-9])? */
  const HOST_BODY := Cat(Char(Alnum), Opt(Cat(Star(Char(AlnumDotDash)), Char(Alnum))))
  const HOST_RE := Anchored(HOST_BODY)

  ghost predicate GoLocale(s: string) { GoAccepts(LOCALE_RE, s) }
  ghost predicate PyLocale(s: string) { PyAccepts(LOCALE_RE, s) }
  ghost predicate GoXkb(s: string) { GoAccepts(XKB_RE, s) }
  ghost predicate PyXkb(s: string) { PyAccepts(XKB_RE, s) }
  ghost predicate PyHostname(s: string) { PyAccepts(LABEL_RE, s) }
  ghost predicate GoHostname(s: string) { GoAccepts(HOST_RE, s) }

  predicate EndsInNewline(s: string) {
    s != "" && s[|s| - 1] == '\n'
  }

  lemma LocaleAnchorFree()
    ensures AnchorFree(LOCALE_BODY)
  {
    UpToAnchorFree(Char(Letter), 2);
    assert AnchorFree(MODIFIER) && AnchorFree(CHARSET) && AnchorFree(UNDER);
    assert AnchorFree(Cat(Char(Letter), UpTo(Char(Letter), 2)));
    assert AnchorFree(Cat(Char(Only('.')), CHARSET));
    assert AnchorFree(Cat(UNDER, Cat(Char(Only('.')), CHARSET)));
  }

  lemma XkbAnchorFree()
    ensures AnchorFree(XKB_BODY)
  {
    assert AnchorFree(XKB_NAME) && AnchorFree(XKB_TAIL);
  }

  lemma LabelAnchorFree(n: nat)
    ensures AnchorFree(LabelBody(n))
  {
    UpToAnchorFree(Char(AlnumDash), n);
    assert AnchorFree(LabelInner(n));
  }

  lemma {:induction false} UpToAnchorFree(r: Regex, n: nat)
    requires AnchorFree(r)
    ensures AnchorFree(UpTo(r, n))
  {
    if n == 0 {
    } else {
      UpToAnchorFree(r, n - 1);
    }
  }

  // ---------- locale ----------

  /** The cut points of a locale name: end of the language, of the territory and of the
      charset. */
  predicate LocaleAt(s: string, a: nat, b: nat, c: nat) {
    && 1 <= a <= 3 && a <= b < |s| && All(Letter, s, 0, a)
    && (a == b || (s[a] == '_' && a + 1 < b && All(Alnum, s, a + 1, b)))
    && s[b] == '.' && b + 1 < c <= |s| && All(AlnumDash, s, b + 1, c)
    && (c == |s| || (s[c] == '@' && c + 1 < |s| && All(Alnum, s, c + 1, |s|)))
  }

  /** An optional part that starts with one given character. */
  lemma OptPart(d: Dialect, x: char, s: string, i: nat, j: nat)
    requires i <= j <= |s|
    ensures Match(d, Opt(Cat(Char(Only(x)), Plus(Char(Alnum)))), s, i, j) <==>
            i == j || (s[i] == x && i + 1 < j && All(Alnum, s, i + 1, j))
  {
    var part := Cat(Char(Only(x)), Plus(Char(Alnum)));
    if Match(d, part, s, i, j) {
      var m := CutCat(d, Char(Only(x)), Plus(Char(Alnum)), s, i, j);
      PlusClass(d, Alnum, s, m, j);
    }
    if i < j && s[i] == x && i + 1 < j && All(Alnum, s, i + 1, j) {
      PlusClass(d, Alnum, s, i + 1, j);
      MatchCat(d, Char(Only(x)), Plus(Char(Alnum)), s, i, i + 1, j);
    }
  }

  lemma LanguagePart(d: Dialect, s: string, a: nat)
    requires a <= |s|
    ensures Match(d, Cat(Char(Letter), UpTo(Char(Letter), 2)), s, 0, a) <==> 1 <= a <= 3 && All(Letter, s, 0, a)
  {
    if Match(d, Cat(Char(Letter), UpTo(Char(Letter), 2)), s, 0, a) {
      var m := CutCat(d, Char(Letter), UpTo(Char(Letter), 2), s, 0, a);
      UpToClass(d, Letter, 2, s, m, a);
    }
    if 1 <= a <= 3 && All(Letter, s, 0, a) {
      UpToClass(d, Letter, 2, s, 1, a);
      MatchCat(d, Char(Letter), UpTo(Char(Letter), 2), s, 0, 1, a);
    }
  }

  lemma CharsetMatches(d: Dialect, s: string, b: nat, c: nat)
    requires b + 1 < c <= |s| && s[b] == '.' && All(AlnumDash, s, b + 1, c)
    requires c == |s| || (s[c] == '@' && c + 1 < |s| && All(Alnum, s, c + 1, |s|))
    ensures Match(d, Cat(Char(Only('.')), CHARSET), s, b, |s|)
  {
    PlusClass(d, AlnumDash, s, b + 1, c);
    OptPart(d, '@', s, c, |s|);
    MatchCat(d, Plus(Char(AlnumDash)), MODIFIER, s, b + 1, c, |s|);
    MatchCat(d, Char(Only('.')), CHARSET, s, b, b + 1, |s|);
  }

  lemma LocaleMatches(d: Dialect, s: string, a: nat, b: nat, c: nat)
    requires LocaleAt(s, a, b, c)
    ensures Match(d, LOCALE_BODY, s, 0, |s|)
  {
    LanguagePart(d, s, a);
    OptPart(d, '_', s, a, b);
    CharsetMatches(d, s, b, c);
    MatchCat(d, UNDER, Cat(Char(Only('.')), CHARSET), s, a, b, |s|);
    MatchCat(d, Cat(Char(Letter), UpTo(Char(Letter), 2)), Cat(UNDER, Cat(Char(Only('.')), CHARSET)), s, 0, a, |s|);
  }

  lemma LocaleCuts(d: Dialect, s: string) returns (a: nat, b: nat, c: nat)
    requires Match(d, LOCALE_BODY, s, 0, |s|)
    ensures LocaleAt(s, a, b, c)
  {
    a := CutCat(d, Cat(Char(Letter), UpTo(Char(Letter), 2)), Cat(UNDER, Cat(Char(Only('.')), CHARSET)), s, 0, |s|);
    b := CutCat(d, UNDER, Cat(Char(Only('.')), CHARSET), s, a, |s|);
    c := CharsetCuts(d, s, b);
    LanguagePart(d, s, a);
    OptPart(d, '_', s, a, b);
  }

  lemma CharsetCuts(d: Dialect, s: string, b: nat) returns (c: nat)
    requires b <= |s| && Match(d, Cat(Char(Only('.')), CHARSET), s, b, |s|)
    ensures b < |s| && s[b] == '.' && b + 1 < c <= |s| && All(AlnumDash, s, b + 1, c)
    ensures c == |s| || (s[c] == '@' && c + 1 < |s| && All(Alnum, s, c + 1, |s|))
  {
    var n := CutCat(d, Char(Only('.')), CHARSET, s, b, |s|);
    c := CutCat(d, Plus(Char(AlnumDash)), MODIFIER, s, n, |s|);
    PlusClass(d, AlnumDash, s, n, c);
    OptPart(d, '@', s, c, |s|);
  }

  /** End of the longest run of one class. */
  method Span(s: string, i: nat, k: Class) returns (j: nat)
    requires i <= |s|
    ensures i <= j <= |s| && All(k, s, i, j)
    ensures j < |s| ==> !In(k, s[j])
  {
    j := i;
    while j < |s| && In(k, s[j])
      invariant i <= j <= |s| && All(k, s, i, j)
    {
      j := j + 1;
    }
  }

  /** Decides the locale pattern as Go does. */
  method ScanLocale(s: string) returns (ok: bool)
    ensures ok <==> GoLocale(s)
  {
    GoAnchored(LOCALE_BODY, s);
    ghost var x: nat, y: nat, z: nat := 0, 0, 0;
    if Match(Go, LOCALE_BODY, s, 0, |s|) {
      x, y, z := LocaleCuts(Go, s);
    }
    var a := Span(s, 0, Letter);
    assert LocaleAt(s, x, y, z) ==> a == x;
    if a < 1 || 3 < a { return false; }
    var b := a;
    if a < |s| && s[a] == '_' {
      b := Span(s, a + 1, Alnum);
      assert LocaleAt(s, x, y, z) ==> b == y;
      if b == a + 1 { return false; }
    }
    assert LocaleAt(s, x, y, z) ==> b == y;
    if b == |s| || s[b] != '.' { return false; }
    var c := Span(s, b + 1, AlnumDash);
    assert LocaleAt(s, x, y, z) ==> c == z;
    if c == b + 1 { return false; }
    if c < |s| {
      if s[c] != '@' { return false; }
      var e := Span(s, c + 1, Alnum);
      if e == c + 1 || e < |s| { return false; }
    }
    LocaleMatches(Go, s, a, b, c);
    return true;
  }

  // ---------- XKB names ----------

  /** Comma separated names, none of them empty. */
  predicate XkbAt(s: string, i: nat)
    requires i <= |s|
  {
    && i < |s|
    && (forall n :: i <= n < |s| ==> In(AlnumUnderscore, s[n]) || s[n] == ',')
    && s[i] != ',' && s[|s| - 1] != ','
    && (forall n :: i < n < |s| ==> !(s[n - 1] == ',' && s[n] == ','))
  }

  lemma {:induction false} XkbMatches(d: Dialect, s: string, i: nat, e: nat)
    requires i < e <= |s| && All(AlnumUnderscore, s, i, e)
    requires XkbAt(s, i) && (e < |s| ==> s[e] == ',')
    ensures Match(d, XKB_BODY, s, i, |s|)
    decreases |s| - i
  {
    PlusClass(d, AlnumUnderscore, s, i, e);
    if e < |s| {
      assert e + 1 < |s| && s[e + 1] != ',';
      var f := e + 1;
      while f < |s| && s[f] != ','
        invariant e + 1 <= f <= |s| && All(AlnumUnderscore, s, e + 1, f)
      {
        f := f + 1;
      }
      XkbMatches(d, s, e + 1, f);
      var m := CutCat(d, XKB_NAME, Star(XKB_TAIL), s, e + 1, |s|);
      MatchCat(d, Char(Only(',')), XKB_NAME, s, e, e + 1, m);
      MatchStar(d, XKB_TAIL, s, e, m, |s|);
    }
    MatchCat(d, XKB_NAME, Star(XKB_TAIL), s, i, e, |s|);
  }

  lemma {:induction false} XkbShape(d: Dialect, s: string, i: nat)
    requires i <= |s| && Match(d, XKB_BODY, s, i, |s|)
    ensures XkbAt(s, i)
    decreases |s| - i
  {
    var e := CutCat(d, XKB_NAME, Star(XKB_TAIL), s, i, |s|);
    PlusClass(d, AlnumUnderscore, s, i, e);
    if e == |s| {
    } else {
      var m := CutStar(d, XKB_TAIL, s, e, |s|);
      var c := CutCat(d, Char(Only(',')), XKB_NAME, s, e, m);
      MatchCat(d, XKB_NAME, Star(XKB_TAIL), s, c, m, |s|);
      XkbShape(d, s, c);
    }
  }

  lemma XkbExact(d: Dialect, s: string)
    ensures Match(d, XKB_BODY, s, 0, |s|) <==> XkbAt(s, 0)
  {
    if Match(d, XKB_BODY, s, 0, |s|) {
      XkbShape(d, s, 0);
    }
    if XkbAt(s, 0) {
      var e := 0;
      while e < |s| && s[e] != ','
        invariant 0 <= e <= |s| && All(AlnumUnderscore, s, 0, e)
      {
        e := e + 1;
      }
      XkbMatches(d, s, 0, e);
    }
  }

  /** Decides the XKB pattern as Go does, in one pass. */
  method ScanXkb(s: string) returns (ok: bool)
    ensures ok <==> GoXkb(s)
  {
    GoAnchored(XKB_BODY, s);
    XkbExact(Go, s);
    ok := false;
    for i := 0 to |s|
      invariant forall n :: 0 <= n < i ==> In(AlnumUnderscore, s[n]) || s[n] == ','
      invariant forall n :: 0 < n < i ==> !(s[n - 1] == ',' && s[n] == ',')
      invariant i > 0 ==> s[0] != ','
      invariant ok <==> i > 0 && s[i - 1] != ','
    {
      if In(AlnumUnderscore, s[i]) {
        ok := true;
      } else if s[i] == ',' && ok {
        ok := false;
      } else {
        return false;
      }
    }
  }

  // ---------- hostnames ----------

  /** A label of section 2.1 of RFC 1123: 1 to 63 letters, digits and hyphens, with a
      letter or digit at both ends. */
  predicate IsLabel(s: string) {
    && 1 <= |s| <= 63 && All(AlnumDash, s, 0, |s|)
    && In(Alnum, s[0]) && In(Alnum, s[|s| - 1])
  }

  predicate IsHost(s: string) {
    && 1 <= |s| && All(AlnumDotDash, s, 0, |s|)
    && In(Alnum, s[0]) && In(Alnum, s[|s| - 1])
  }

  lemma LabelExact(d: Dialect, n: nat, s: string)
    ensures Match(d, LabelBody(n), s, 0, |s|) <==>
            1 <= |s| <= n + 2 && All(AlnumDash, s, 0, |s|) && In(Alnum, s[0]) && In(Alnum, s[|s| - 1])
  {
    var body := UpTo(Char(AlnumDash), n);
    if Match(d, LabelBody(n), s, 0, |s|) {
      var m := CutCat(d, Char(Alnum), Opt(LabelInner(n)), s, 0, |s|);
      if m < |s| {
        var e := CutCat(d, body, Char(Alnum), s, m, |s|);
        UpToClass(d, AlnumDash, n, s, m, e);
      }
    }
    if 1 <= |s| <= n + 2 && All(AlnumDash, s, 0, |s|) && In(Alnum, s[0]) && In(Alnum, s[|s| - 1]) {
      if |s| > 1 {
        UpToClass(d, AlnumDash, n, s, 1, |s| - 1);
        MatchCat(d, body, Char(Alnum), s, 1, |s| - 1, |s|);
      }
      MatchCat(d, Char(Alnum), Opt(LabelInner(n)), s, 0, 1, |s|);
    }
  }

  lemma HostExact(d: Dialect, s: string)
    ensures Match(d, HOST_BODY, s, 0, |s|) <==> IsHost(s)
  {
    var inner := Cat(Star(Char(AlnumDotDash)), Char(Alnum));
    if Match(d, HOST_BODY, s, 0, |s|) {
      var m := CutCat(d, Char(Alnum), Opt(inner), s, 0, |s|);
      if m < |s| {
        var e := CutCat(d, Star(Char(AlnumDotDash)), Char(Alnum), s, m, |s|);
        StarClass(d, AlnumDotDash, s, m, e);
      }
    }
    if IsHost(s) {
      if |s| > 1 {
        StarClass(d, AlnumDotDash, s, 1, |s| - 1);
        MatchCat(d, Star(Char(AlnumDotDash)), Char(Alnum), s, 1, |s| - 1, |s|);
      }
      MatchCat(d, Char(Alnum), Opt(inner), s, 0, 1, |s|);
    }
  }

  /** Decides Go's hostname pattern. */
  method ScanHost(s: string) returns (ok: bool)
    ensures ok <==> GoHostname(s)
  {
    GoAnchored(HOST_BODY, s);
    HostExact(Go, s);
    var e := Span(s, 0, AlnumDotDash);
    return 1 <= |s| && e == |s| && In(Alnum, s[0]) && In(Alnum, s[|s| - 1]);
  }

  /** Decides the label part of Python's hostname pattern. */
  method ScanLabel(s: string) returns (ok: bool)
    ensures ok <==> IsLabel(s)
  {
    var e := Span(s, 0, AlnumDash);
    return 1 <= |s| <= 63 && e == |s| && In(Alnum, s[0]) && In(Alnum, s[|s| - 1]);
  }

  // ---------- the two languages compared ----------

  lemma GoLocaleLine(s: string)
    requires GoLocale(s)
    ensures !EndsInNewline(s)
  {
    GoAnchored(LOCALE_BODY, s);
    var a, b, c := LocaleCuts(Go, s);
  }

  lemma LocaleVersus(s: string)
    ensures PyLocale(s) <==> GoLocale(s) || (EndsInNewline(s) && GoLocale(s[..|s| - 1]))
    ensures GoLocale(s) ==> !EndsInNewline(s)
  {
    LocaleAnchorFree();
    PythonVersusGo(LOCALE_BODY, s);
    if GoLocale(s) {
      GoLocaleLine(s);
    }
  }

  lemma GoXkbLine(s: string)
    requires GoXkb(s)
    ensures !EndsInNewline(s)
  {
    GoAnchored(XKB_BODY, s);
    XkbExact(Go, s);
  }

  lemma XkbVersus(s: string)
    ensures PyXkb(s) <==> GoXkb(s) || (EndsInNewline(s) && GoXkb(s[..|s| - 1]))
    ensures GoXkb(s) ==> !EndsInNewline(s)
  {
    XkbAnchorFree();
    PythonVersusGo(XKB_BODY, s);
    if GoXkb(s) {
      GoXkbLine(s);
    }
  }

  lemma GoLabel(s: string)
    ensures GoAccepts(LABEL_RE, s) <==> IsLabel(s)
  {
    GoAnchored(LABEL_BODY, s);
    LabelExact(Go, LABEL_INNER_MAX, s);
  }

  lemma GoHost(s: string)
    ensures GoHostname(s) <==> IsHost(s)
  {
    GoAnchored(HOST_BODY, s);
    HostExact(Go, s);
  }

  /** Python's hostname pattern is the label, with an optional trailing newline; without
      one, Go accepts every label. */
  lemma HostnameVersus(s: string)
    ensures PyHostname(s) <==> IsLabel(s) || (EndsInNewline(s) && IsLabel(s[..|s| - 1]))
    ensures GoHostname(s) <==> IsHost(s)
    ensures PyHostname(s) ==> (GoHostname(s) <==> !EndsInNewline(s))
  {
    PyLabel(s);
    GoHost(s);
  }

  lemma PyLabel(s: string)
    ensures PyHostname(s) <==> IsLabel(s) || (EndsInNewline(s) && IsLabel(s[..|s| - 1]))
  {
    LabelAnchorFree(LABEL_INNER_MAX);
    PythonVersusGo(LABEL_BODY, s);
    GoLabel(s);
    if s != "" {
      GoLabel(s[..|s| - 1]);
    }
  }

  // ---------- Python's validators ----------

  /** valid_locale. */
  method ValidLocale(s: string) returns (ok: bool)
    ensures ok <==> PyLocale(s)
  {
    LocaleVersus(s);
    ok := ScanLocale(s);
    if !ok && EndsInNewline(s) {
      ok := ScanLocale(s[..|s| - 1]);
    }
  }

  /** One XKB_TOKEN_RE match. */
  method ValidXkb(s: string) returns (ok: bool)
    ensures ok <==> PyXkb(s)
  {
    XkbVersus(s);
    ok := ScanXkb(s);
    if !ok && EndsInNewline(s) {
      ok := ScanXkb(s[..|s| - 1]);
    }
  }

  /** valid_hostname. */
  method ValidHostname(s: string) returns (ok: bool)
    ensures ok <==> PyHostname(s)
  {
    HostnameVersus(s);
    ok := ScanLabel(s);
    if !ok && EndsInNewline(s) {
      ok := ScanLabel(s[..|s| - 1]);
    }
  }
}
