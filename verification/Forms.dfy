/** The shapes of the names that the programs accept and cut, written out character by
    character. */
module Forms {
  import opened Text
  import opened Regex
  import opened Shapes
  import opened Pairing
  import opened Lockfile

  predicate IsAlpha(c: char) {
    'A' <= c <= 'Z' || 'a' <= c <= 'z'
  }

  predicate IsNum(c: char) {
    '0' <= c <= '9'
  }

  /** Letters, digits and the extra characters. */
  predicate Over(s: string, extra: string) {
    forall k :: 0 <= k < |s| ==> IsAlpha(s[k]) || IsNum(s[k]) || s[k] in extra
  }

  predicate AllAlpha(s: string) {
    forall k :: 0 <= k < |s| ==> IsAlpha(s[k])
  }

  predicate AllNum(s: string) {
    forall k :: 0 <= k < |s| ==> IsNum(s[k])
  }

  // ---------- the installer's names ----------

  /** An absent part, or the mark and one or more letters and digits. */
  predicate Optional(part: string, mark: char) {
    part == "" || (|part| > 1 && part[0] == mark && Over(part[1..], ""))
  }

  /** A locale is a language of 1 to 3 letters, an optional territory after `_`, a dot, a
      charset, and an optional modifier after `@`. */
  predicate LocaleParts(s: string, language: string, territory: string, charset: string, modifier: string) {
    && s == language + territory + "." + charset + modifier
    && 1 <= |language| <= 3 && AllAlpha(language) && Optional(territory, '_')
    && charset != "" && Over(charset, "-") && Optional(modifier, '@')
  }

  lemma LocaleForm(s: string)
    ensures GoLocale(s) <==> exists l, t, c, m :: LocaleParts(s, l, t, c, m)
  {
    GoAnchored(LOCALE_BODY, s);
    if GoLocale(s) {
      var a, b, c := LocaleCuts(Go, s);
      PartsOfCuts(s, a, b, c);
    }
    if l, t, c, m :| LocaleParts(s, l, t, c, m) {
      CutsOfParts(s, l, t, c, m);
      LocaleMatches(Go, s, |l|, |l| + |t|, |l| + |t| + 1 + |c|);
    }
  }

  lemma PartsOfCuts(s: string, a: nat, b: nat, c: nat)
    requires LocaleAt(s, a, b, c)
    ensures LocaleParts(s, s[..a], s[a..b], s[b + 1..c], s[c..])
  {
    var language, territory, charset, modifier := s[..a], s[a..b], s[b + 1..c], s[c..];
    assert s == language + territory + "." + charset + modifier;
    forall k | 0 <= k < |language| ensures IsAlpha(language[k]) {
      assert In(Letter, s[k]);
    }
    forall k | 0 <= k < |charset| ensures IsAlpha(charset[k]) || IsNum(charset[k]) || charset[k] in "-" {
      assert In(AlnumDash, s[b + 1 + k]);
    }
    forall k | 1 <= k < |territory| ensures IsAlpha(territory[k]) || IsNum(territory[k]) {
      assert In(Alnum, s[a + k]);
    }
    forall k | 1 <= k < |modifier| ensures IsAlpha(modifier[k]) || IsNum(modifier[k]) {
      assert In(Alnum, s[c + k]);
    }
  }

  lemma CutsOfParts(s: string, l: string, t: string, c: string, m: string)
    requires LocaleParts(s, l, t, c, m)
    ensures LocaleAt(s, |l|, |l| + |t|, |l| + |t| + 1 + |c|)
  {
    var b, e := |l| + |t|, |l| + |t| + 1 + |c|;
    assert forall k :: 0 <= k < |l| ==> s[k] == l[k];
    assert forall k :: |l| <= k < b ==> s[k] == t[k - |l|];
    assert s[b] == '.';
    assert forall k :: b < k < e ==> s[k] == c[k - b - 1];
    assert forall k :: e <= k < |s| ==> s[k] == m[k - e];
    assert t != "" ==> forall k :: |l| < k < b ==> s[k] == t[1..][k - |l| - 1];
    assert m != "" ==> forall k :: e < k < |s| ==> s[k] == m[1..][k - e - 1];
  }

  /** An XKB name is made of letters, digits, underscores and commas, the commas neither
      at an end nor side by side. */
  lemma XkbForm(s: string)
    ensures GoXkb(s) <==>
              && s != "" && Over(s, "_,") && s[0] != ',' && s[|s| - 1] != ','
              && forall n :: 0 < n < |s| ==> !(s[n - 1] == ',' && s[n] == ',')
  {
    GoAnchored(XKB_BODY, s);
    XkbExact(Go, s);
    forall n | 0 <= n < |s|
      ensures In(AlnumUnderscore, s[n]) || s[n] == ',' <==> IsAlpha(s[n]) || IsNum(s[n]) || s[n] in "_," {
    }
  }

  /** Go's hostname has letters, digits, dots and hyphens, a letter or digit at both ends. */
  lemma HostForm(s: string)
    ensures GoHostname(s) <==> s != "" && Over(s, ".-") && s[0] !in ".-" && s[|s| - 1] !in ".-"
  {
    HostnameVersus(s);
    forall n | 0 <= n < |s| ensures In(AlnumDotDash, s[n]) <==> IsAlpha(s[n]) || IsNum(s[n]) || s[n] in ".-" {
    }
  }

  /** A hostname the installer takes, a trailing newline aside, is 1 to 63 letters, digits
      and hyphens, no hyphen at an end. */
  lemma LabelForm(s: string)
    requires !EndsInNewline(s)
    ensures PyHostname(s) <==> 1 <= |s| <= 63 && Over(s, "-") && s[0] != '-' && s[|s| - 1] != '-'
  {
    HostnameVersus(s);
    forall n | 0 <= n < |s| ensures In(AlnumDash, s[n]) <==> IsAlpha(s[n]) || IsNum(s[n]) || s[n] in "-" {
    }
  }

  // ---------- versions and pins ----------

  /** A version is the release, a hyphen and a revision without hyphens; without a hyphen
      it is its own release. */
  lemma UsableForm(release: string, revision: string, tagged: string -> bool)
    requires Free(revision, '-')
    ensures WithoutRevision(release + "-" + revision) == release
    ensures Usable(release + "-" + revision, tagged) <==> release != "" && tagged(release)
    ensures WithoutRevision(revision) == revision
    ensures Usable(revision, tagged) <==> revision != "" && tagged(revision)
  {
    LastSeparator(release, '-', revision);
    assert (release + "-" + revision)[..|release|] == release;
  }

  /** A user-space version counts as its part before the first hyphen, a module version
      as its part before the first plus that no hyphen precedes. */
  lemma ReleaseForm(release: string, rest: string)
    requires Free(release, '-')
    ensures UserRelease(release + "-" + rest) == release && UserRelease(release) == release
    ensures Free(release, '+') ==> ModuleRelease(release + "+" + rest) == release && ModuleRelease(release) == release
  {
    CutAtFirst(release, '-', rest);
    CutFree(release, '-');
    if Free(release, '+') {
      ReleaseRecovered(release, rest);
      CutFree(release, '+');
    }
  }

  /** A version matches a release's pin when it is as long as the release up to a hyphen,
      agrees with it outside the dots, and a number follows. */
  lemma PinForm(r: string, x: string, n: string)
    requires |x| == |r|
    ensures GoAccepts(PinRe(r), x + "-" + n) <==>
              n != "" && AllNum(n) && forall i :: 0 <= i < |r| && r[i] != '.' ==> x[i] == r[i]
  {
    var v := x + "-" + n;
    PinExact(r, v);
    assert forall i :: 0 <= i < |x| ==> v[i] == x[i];
    assert v[|r|] == '-';
    assert forall i :: |r| < i < |v| ==> v[i] == n[i - |r| - 1];
    assert forall k :: 0 <= k < |n| ==> n[k] == v[|r| + 1 + k];
  }

  // ---------- deb files ----------

  /** The files of a package: its name, an underscore, anything, `.deb`; a file without an
      underscore counts for the package that has its whole name. */
  lemma DebForm(pkg: string, name: string)
    requires Free(pkg, '_')
    ensures DebOf(pkg, name) <==> exists mid :: name == pkg + "_" + mid + ".deb"
    ensures IsFor(pkg, name) <==> (exists mid :: name == pkg + "_" + mid + ".deb") || (name == pkg && EndsWith(name, ".deb"))
  {
    if DebOf(pkg, name) {
      DebMiddle(pkg, name);
      DebPrefix(pkg, name);
    }
    if mid :| name == pkg + "_" + mid + ".deb" {
      assert name[..|pkg| + 1] == pkg + "_" && name[|name| - 4..] == ".deb";
    }
    if IsFor(pkg, name) && Find(name, '_') < |name| {
      assert name == pkg + "_" + name[|pkg| + 1..];
      assert name[..|pkg| + 1] == pkg + "_";
    }
    if name == pkg {
      assert Find(name, '_') == |name| && name[..|name|] == name;
    }
  }

  lemma DebMiddle(pkg: string, name: string)
    requires DebOf(pkg, name)
    ensures |pkg| + 5 <= |name| && name == pkg + "_" + name[|pkg| + 1..|name| - 4] + ".deb"
  {
    var n := |pkg|;
    assert name[..n + 1] == pkg + "_" && name[n] == '_' by { assert name[..n + 1][n] == '_'; }
    assert forall k :: |name| - 4 <= k < |name| ==> name[k] == ".deb"[k - (|name| - 4)];
    assert name == name[..n + 1] + name[n + 1..|name| - 4] + name[|name| - 4..];
  }
}
