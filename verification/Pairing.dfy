/** Pairing the NVIDIA kernel modules with the NVIDIA user space: release selection, the
    module deb's version, the pins of the derived image and its same-release gate. */
module Pairing {
  import opened Text
  import opened Regex

  // ---------- release selection ----------

  /** `${v%-*}`: the text before the last hyphen. */
  function WithoutRevision(v: string): string {
    var i := FindLast(v, '-');
    if i < 0 then v else v[..i]
  }

  /** A listed version gives a usable release: it is not empty and its tag exists. */
  predicate Usable(v: string, tagged: string -> bool) {
    v != "" && WithoutRevision(v) != "" && tagged(WithoutRevision(v))
  }

  /** The loop over the listed versions, newest first: the release of the first usable
      one, empty when there is none. */
  method SelectRelease(versions: seq<string>, tagged: string -> bool) returns (release: string)
    ensures if exists i :: 0 <= i < |versions| && Usable(versions[i], tagged)
            then exists i :: 0 <= i < |versions| && Usable(versions[i], tagged) && release == WithoutRevision(versions[i])
                             && forall j :: 0 <= j < i ==> !Usable(versions[j], tagged)
            else release == ""
  {
    release := "";
    ghost var at := 0;
    for k := 0 to |versions|
      invariant release == "" ==> forall j :: 0 <= j < k ==> !Usable(versions[j], tagged)
      invariant release != "" ==> 0 <= at < k && Usable(versions[at], tagged) && release == WithoutRevision(versions[at])
                                  && forall j :: 0 <= j < at ==> !Usable(versions[j], tagged)
    {
      var v := versions[k];
      if v != "" {
        v := WithoutRevision(v);
        if release == "" && tagged(v) {
          release := v;
          at := k;
        }
      }
    }
  }

  // ---------- the module deb's version ----------

  predicate DigitsAndDots(s: string) {
    forall i :: 0 <= i < |s| ==> IsDigit(s[i]) || s[i] == '.'
  }

  /** `s/c.* //` (without the blank): the text before the first c. */
  function CutAt(s: string, c: char): string {
    s[..Find(s, c)]
  }

  function ModuleRelease(version: string): string {
    CutAt(CutAt(version, '-'), '+')
  }

  lemma CutAtFirst(a: string, c: char, b: string)
    requires Free(a, c)
    ensures CutAt(a + [c] + b, c) == a
  {
    FirstSeparator(a, c, b);
  }

  lemma CutFree(s: string, c: char)
    ensures Free(CutAt(s, c), c)
    ensures Free(s, c) ==> CutAt(s, c) == s
  {
  }

  /** Stripping the module deb's version gives the release back, whatever kernel version
      it was built against, exactly for releases without hyphen and plus. */
  lemma ReleaseRecovered(release: string, built: string)
    ensures ModuleRelease(release + "+" + built) == release <==> Free(release, '-') && Free(release, '+')
  {
    var v := release + "+" + built;
    var c := CutAt(v, '-');
    CutFree(v, '-');
    CutFree(c, '+');
    if Free(release, '-') && Free(release, '+') {
      var rest := built[..Find(built, '-')];
      CutPlus(release, built);
      assert c == release + ['+'] + rest;
      CutAtFirst(release, '+', rest);
    }
    if ModuleRelease(v) == release {
      assert forall x :: x in ModuleRelease(v) ==> x in c;
    }
  }

  lemma CutPlus(release: string, built: string)
    requires Free(release, '-')
    ensures CutAt(release + "+" + built, '-') == release + "+" + CutAt(built, '-')
  {
    var v, i := release + "+" + built, Find(built, '-');
    var n := |release| + 1 + i;
    assert forall k :: 0 <= k < |release| ==> v[k] == release[k];
    assert forall k :: |release| < k < |v| ==> v[k] == built[k - |release| - 1];
    forall k | 0 <= k < n ensures v[k] != '-' {
      if k < |release| {
        assert v[k] == release[k];
      } else if k > |release| {
        assert v[k] == built[k - |release| - 1];
      }
    }
    assert i < |built| ==> v[n] == built[i];
    assert v[..n] == release + "+" + built[..i];
  }

  // ---------- the pins ----------

  /** The release as it stands in awk's pattern: its dots are not escaped. */
  function Dotted(r: string): Regex {
    if r == "" then Empty else Cat(if r[0] == '.' then Char(AnyChar) else Char(Only(r[0])), Dotted(r[1..]))
  }

  const REVISION := Cat(Char(Only('-')), Plus(Char(Digit)))

  /** "^" r "-[0-9]+$" */
  function PinRe(r: string): Regex {
    Anchored(Cat(Dotted(r), REVISION))
  }

  /** The same test character by character. */
  predicate PinShape(r: string, v: string) {
    && |r| + 1 < |v| && v[|r|] == '-'
    && (forall i :: 0 <= i < |r| ==> r[i] == '.' || v[i] == r[i])
    && All(Digit, v, |r| + 1, |v|)
  }

  lemma {:induction false} DottedSpan(r: string, v: string, i: nat, j: nat)
    requires i <= j <= |v|
    ensures Match(Go, Dotted(r), v, i, j) <==>
            j == i + |r| && forall k :: 0 <= k < |r| ==> r[k] == '.' || v[i + k] == r[k]
    decreases |r|
  {
    if r == "" {
    } else {
      var head := if r[0] == '.' then Char(AnyChar) else Char(Only(r[0]));
      if Match(Go, Dotted(r), v, i, j) {
        var m := CutCat(Go, head, Dotted(r[1..]), v, i, j);
        DottedSpan(r[1..], v, m, j);
        forall k | 0 <= k < |r| ensures r[k] == '.' || v[i + k] == r[k] {
          if k > 0 { assert r[1..][k - 1] == r[k] && v[m + (k - 1)] == v[i + k]; }
        }
      }
      if j == i + |r| && forall k :: 0 <= k < |r| ==> r[k] == '.' || v[i + k] == r[k] {
        forall k | 0 <= k < |r[1..]| ensures r[1..][k] == '.' || v[i + 1 + k] == r[1..][k] {
          assert r[k + 1] == '.' || v[i + (k + 1)] == r[k + 1];
        }
        DottedSpan(r[1..], v, i + 1, j);
        MatchCat(Go, head, Dotted(r[1..]), v, i, i + 1, j);
      }
    }
  }

  lemma RevisionSpan(v: string, i: nat)
    requires i <= |v|
    ensures Match(Go, REVISION, v, i, |v|) <==> i + 1 < |v| && v[i] == '-' && All(Digit, v, i + 1, |v|)
  {
    if Match(Go, REVISION, v, i, |v|) {
      var m := CutCat(Go, Char(Only('-')), Plus(Char(Digit)), v, i, |v|);
      PlusClass(Go, Digit, v, m, |v|);
    }
    if i + 1 < |v| && v[i] == '-' && All(Digit, v, i + 1, |v|) {
      PlusClass(Go, Digit, v, i + 1, |v|);
      MatchCat(Go, Char(Only('-')), Plus(Char(Digit)), v, i, i + 1, |v|);
    }
  }

  lemma PinExact(r: string, v: string)
    ensures GoAccepts(PinRe(r), v) <==> PinShape(r, v)
  {
    GoAnchored(Cat(Dotted(r), REVISION), v);
    if Match(Go, Cat(Dotted(r), REVISION), v, 0, |v|) {
      var m := CutCat(Go, Dotted(r), REVISION, v, 0, |v|);
      DottedSpan(r, v, 0, m);
      RevisionSpan(v, m);
      assert forall i :: 0 <= i < |r| ==> r[i] == '.' || v[0 + i] == r[i];
    }
    if PinShape(r, v) {
      DottedSpan(r, v, 0, |r|);
      RevisionSpan(v, |r|);
      MatchCat(Go, Dotted(r), REVISION, v, 0, |r|, |v|);
    }
  }

  /** The first listed version that matches the pattern; empty when none does. */
  method FirstPin(r: string, versions: seq<string>) returns (v: string)
    ensures v != "" ==>
              && GoAccepts(PinRe(r), v)
              && (exists i :: 0 <= i < |versions| && versions[i] == v && forall j :: 0 <= j < i ==> !GoAccepts(PinRe(r), versions[j]))
    ensures v == "" ==> forall i :: 0 <= i < |versions| ==> !GoAccepts(PinRe(r), versions[i])
  {
    for i := 0 to |versions|
      invariant forall j :: 0 <= j < i ==> !GoAccepts(PinRe(r), versions[j])
    {
      PinExact(r, versions[i]);
      if PinShape(r, versions[i]) { return versions[i]; }
    }
    return "";
  }

  ghost predicate Resolvable(r: string, listing: seq<string>) {
    exists v :: v in listing && GoAccepts(PinRe(r), v)
  }

  /** The pins of all packages, or failure at the first package without a matching
      version. */
  method ResolvePins(r: string, listings: seq<seq<string>>) returns (pins: seq<string>, ok: bool)
    ensures ok ==> |pins| == |listings| && forall i :: 0 <= i < |pins| ==> pins[i] in listings[i] && GoAccepts(PinRe(r), pins[i])
    ensures ok <==> forall i :: 0 <= i < |listings| ==> Resolvable(r, listings[i])
  {
    pins := [];
    for i := 0 to |listings|
      invariant |pins| == i
      invariant forall j :: 0 <= j < i ==> pins[j] in listings[j] && GoAccepts(PinRe(r), pins[j])
      invariant forall j :: 0 <= j < i ==> Resolvable(r, listings[j])
    {
      var v := FirstPin(r, listings[i]);
      if v == "" {
        assert forall x :: x in listings[i] ==> !GoAccepts(PinRe(r), x);
        return pins, false;
      }
      assert v in listings[i];
      pins := pins + [v];
    }
    ok := true;
  }

  // ---------- the same-release gate ----------

  function UserRelease(version: string): string {
    CutAt(version, '-')
  }

  function Dots(s: string): nat {
    if s == "" then 0 else Dots(s[..|s| - 1]) + if s[|s| - 1] == '.' then 1 else 0
  }

  /** x agrees with r outside the dots of r. */
  predicate Agrees(r: string, x: string) {
    |x| == |r| && forall i :: 0 <= i < |r| ==> r[i] == '.' || x[i] == r[i]
  }

  lemma {:induction false} DotsDecide(r: string, x: string)
    requires DigitsAndDots(r) && Agrees(r, x)
    ensures Dots(x) <= Dots(r)
    ensures Dots(x) == Dots(r) ==> x == r
  {
    if r == "" {
    } else {
      var n := |r| - 1;
      DotsDecide(r[..n], x[..n]);
      if Dots(x) == Dots(r) {
        assert r == r[..n] + [r[n]] && x == x[..n] + [x[n]];
      }
    }
  }

  /** For a version that matched the unescaped pattern, the gate passes exactly when its
      first part is made of digits and dots with as many dots as the module release. */
  lemma GateExactly(r: string, v: string)
    requires DigitsAndDots(r) && GoAccepts(PinRe(r), v)
    ensures |r| < |v|
    ensures UserRelease(v) == r <==> DigitsAndDots(v[..|r|]) && Dots(v[..|r|]) == Dots(r)
  {
    PinExact(r, v);
    var x := v[..|r|];
    if DigitsAndDots(x) && Dots(x) == Dots(r) {
      DotsDecide(r, x);
      assert v == r + ['-'] + v[|r| + 1..];
      assert Free(r, '-');
      CutAtFirst(r, '-', v[|r| + 1..]);
    }
    if UserRelease(v) == r {
      assert x == UserRelease(v);
    }
  }

  /** A version that matches the pattern and still fails the gate. */
  lemma UnescapedDot()
    ensures GoAccepts(PinRe("1.2"), "132-1") && UserRelease("132-1") != "1.2"
  {
    PinExact("1.2", "132-1");
    assert "132-1" == "132" + ['-'] + "1";
    CutAtFirst("132", '-', "1");
  }

  /** The version ends in a hyphen and a number. */
  predicate NumericRevision(v: string) {
    var i := FindLast(v, '-');
    i >= 0 && i + 1 < |v| && All(Digit, v, i + 1, |v|)
  }

  /** The version a release was selected from matches the release's own pin exactly when
      its revision is a number, and passes the gate exactly when the release has no
      hyphen. */
  lemma SelectedPins(v: string)
    ensures GoAccepts(PinRe(WithoutRevision(v)), v) <==> NumericRevision(v)
    ensures UserRelease(v) == WithoutRevision(v) <==> Free(WithoutRevision(v), '-')
  {
    var r, i := WithoutRevision(v), FindLast(v, '-');
    PinExact(r, v);
    CutFree(v, '-');
    if i >= 0 && Free(r, '-') {
      assert v == r + ['-'] + v[i + 1..];
      CutAtFirst(r, '-', v[i + 1..]);
    }
  }

  /** From selection to gate: for the module deb built at a release, a user-space version
      that its stripped release pinned passes the gate exactly when its first part is
      made of digits and dots with as many dots as the release. */
  lemma ReleasesPair(release: string, built: string, v: string)
    requires DigitsAndDots(release)
    requires GoAccepts(PinRe(ModuleRelease(release + "+" + built)), v)
    ensures |release| < |v|
    ensures UserRelease(v) == ModuleRelease(release + "+" + built) <==>
            DigitsAndDots(v[..|release|]) && Dots(v[..|release|]) == Dots(release)
  {
    assert Free(release, '-') && Free(release, '+');
    ReleaseRecovered(release, built);
    GateExactly(release, v);
  }
}
