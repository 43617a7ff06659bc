/** The image catalog of the installer recipe: its generation from the Containerfiles,
    and the licence tests of the GUI and of the privileged helper. */
module Catalog {
  import opened Text

  // ---------- labels ----------

  const QUOTES := "\"'"

  /** The text before the first quote or newline. */
  function Unquoted(s: string): string {
    if s == "" || s[0] in QUOTES || s[0] == '\n' then "" else [s[0]] + Unquoted(s[1..])
  }

  /** One line against `^\s*LABEL\s+<key>=["']?([^"'\n]*)`; the captured value, stripped. */
  function LabelValue(line: string, key: string): Option<string> {
    var a := LStrip(line);
    if !StartsWith(a, "LABEL") then None
    else
      var b := a[5..];
      var c := LStrip(b);
      if |c| == |b| || !StartsWith(c, key + "=") then None
      else
        var v := c[|key| + 1..];
        Some(Strip(Unquoted(if v != "" && v[0] in QUOTES then v[1..] else v)))
  }

  /** The value of the first matching line. */
  function FirstLabel(lines: seq<string>, key: string): string {
    if lines == [] then ""
    else match LabelValue(lines[0], key)
      case Some(v) => v
      case None => FirstLabel(lines[1..], key)
  }

  /** read_label. */
  method ReadLabel(lines: seq<string>, key: string) returns (value: string)
    ensures value == FirstLabel(lines, key)
  {
    for i := 0 to |lines|
      invariant FirstLabel(lines, key) == FirstLabel(lines[i..], key)
    {
      var found := LabelValue(lines[i], key);
      if found.Some? { return found.value; }
      assert lines[i..][1..] == lines[i + 1..];
    }
    return "";
  }

  lemma {:induction false} UnquotedStops(v: string, rest: string)
    requires forall k :: 0 <= k < |v| ==> v[k] !in QUOTES && v[k] != '\n'
    requires rest == "" || rest[0] in QUOTES || rest[0] == '\n'
    ensures Unquoted(v + rest) == v
  {
    if v == "" {
      assert v + rest == rest;
    } else {
      assert (v + rest)[1..] == v[1..] + rest;
      UnquotedStops(v[1..], rest);
    }
  }

  /** A quoted label is read back without its quotes and outer blanks. */
  lemma LabelReadsBack(key: string, v: string, after: string)
    requires key != "" && !IsSpace(key[0])
    requires forall k :: 0 <= k < |v| ==> v[k] !in QUOTES && v[k] != '\n'
    ensures LabelValue("LABEL " + key + "=\"" + v + "\"" + after, key) == Some(Strip(v))
  {
    var line := "LABEL " + key + "=\"" + v + "\"" + after;
    var q := "\"" + (v + ("\"" + after));
    var c := key + "=" + q;
    assert line == "LABEL" + (" " + c) by {
      assert "LABEL " == "LABEL" + " " && "=\"" == "=" + "\"";
    }
    QuotedValue(v, after);
    ValueAt(line, key, c, q);
  }

  lemma QuotedValue(v: string, after: string)
    requires forall k :: 0 <= k < |v| ==> v[k] !in QUOTES && v[k] != '\n'
    ensures var q := "\"" + (v + ("\"" + after));
            q[0] in QUOTES && Unquoted(q[1..]) == v
  {
    var close := "\"" + after;
    TailAppend("\"", v + close);
    assert "\""[1..] + (v + close) == v + close;
    assert close[0] == '\"';
    UnquotedStops(v, close);
  }

  lemma ValueFound(line: string, key: string, b: string, c: string, q: string)
    requires LStrip(line) == line && StartsWith(line, "LABEL") && line[5..] == b
    requires LStrip(b) == c && |c| < |b| && StartsWith(c, key + "=") && c[|key| + 1..] == q
    requires q != "" && q[0] in QUOTES
    ensures LabelValue(line, key) == Some(Strip(Unquoted(q[1..])))
  {
  }

  lemma ValueAt(line: string, key: string, c: string, q: string)
    requires key != "" && !IsSpace(key[0]) && c == key + "=" + q && line == "LABEL" + (" " + c)
    requires q != "" && q[0] in QUOTES
    ensures LabelValue(line, key) == Some(Strip(Unquoted(q[1..])))
  {
    var b := " " + c;
    assert line[0] == "LABEL"[0] && line[..5] == "LABEL" && line[5..] == b;
    LStripNone(line);
    assert b[0] == ' ' && b[1..] == c && c[0] == key[0];
    LStripFirst(b, c);
    LStripNone(c);
    assert c[..|key| + 1] == key + "=" && c[|key| + 1..] == q;
    ValueFound(line, key, b, c, q);
  }

  // ---------- generation ----------

  const ALL_ARCHES := ["amd64", "arm64"]
  const FILE_STEM := "Containerfile"

  /** A scanned Containerfile: its name, its arches label split into words, its licence
      label. */
  datatype Source = Source(name: string, only: seq<string>, eula: string)

  /** A catalog entry; an empty licence is an absent `eula` key. */
  datatype Image = Image(imgref: string, eula: string)

  function Tag(name: string): string {
    if name == FILE_STEM then "latest" else if |name| > |FILE_STEM| then name[|FILE_STEM| + 1..] else ""
  }

  function Imgref(registry: string, tag: string, arch: string): string {
    registry + ":" + tag + "_" + arch
  }

  predicate Lists(s: Source, arch: string) {
    s.only == [] || arch in s.only
  }

  function Wanted(arches: seq<string>, filter: string): seq<string> {
    if arches == [] then []
    else (if filter == "" || filter == arches[0] then [arches[0]] else []) + Wanted(arches[1..], filter)
  }

  /** The entries of one file, in the order of the architectures. */
  function EntriesOf(registry: string, s: Source, arches: seq<string>): seq<Image> {
    if arches == [] then []
    else EntriesOf(registry, s, arches[..|arches| - 1])
         + if Lists(s, arches[|arches| - 1]) then [Image(Imgref(registry, Tag(s.name), arches[|arches| - 1]), s.eula)] else []
  }

  function Build(registry: string, files: seq<Source>, arches: seq<string>): seq<Image> {
    if files == [] then []
    else Build(registry, files[..|files| - 1], arches) + EntriesOf(registry, files[|files| - 1], arches)
  }

  lemma EntriesStep(registry: string, s: Source, arches: seq<string>, j: nat)
    requires j < |arches|
    ensures EntriesOf(registry, s, arches[..j + 1]) == EntriesOf(registry, s, arches[..j])
              + if Lists(s, arches[j]) then [Image(Imgref(registry, Tag(s.name), arches[j]), s.eula)] else []
  {
    assert arches[..j + 1][..j] == arches[..j];
  }

  /** _build_images over the sorted Containerfiles. */
  method BuildImages(registry: string, files: seq<Source>, filter: string) returns (images: seq<Image>)
    ensures images == Build(registry, files, Wanted(ALL_ARCHES, filter))
  {
    var arches := Wanted(ALL_ARCHES, filter);
    images := [];
    for i := 0 to |files|
      invariant images == Build(registry, files[..i], arches)
    {
      var s := files[i];
      ghost var before := images;
      for j := 0 to |arches|
        invariant images == before + EntriesOf(registry, s, arches[..j])
      {
        EntriesStep(registry, s, arches, j);
        if s.only == [] || arches[j] in s.only {
          images := images + [Image(registry + ":" + Tag(s.name) + "_" + arches[j], s.eula)];
        }
      }
      assert arches[..|arches|] == arches && files[..i + 1][..i] == files[..i];
    }
    assert files[..|files|] == files;
  }

  /** The default image: the first entry. */
  function DefaultImgref(images: seq<Image>): string {
    if images != [] then images[0].imgref else ""
  }

  predicate HasArch(image: Image, arch: string) {
    EndsWith(image.imgref, "_" + arch)
  }

  function OfArch(images: seq<Image>, arch: string): seq<Image> {
    if images == [] then []
    else OfArch(images[..|images| - 1], arch) + if HasArch(images[|images| - 1], arch) then [images[|images| - 1]] else []
  }

  lemma {:induction false} OfArchAppend(a: seq<Image>, b: seq<Image>, arch: string)
    ensures OfArch(a + b, arch) == OfArch(a, arch) + OfArch(b, arch)
  {
    if b == [] {
      assert a + b == a;
    } else {
      var n := |b| - 1;
      OfArchAppend(a, b[..n], arch);
      InitAppend(a, b);
      Associative(OfArch(a, arch), OfArch(b[..n], arch), if HasArch(b[n], arch) then [b[n]] else []);
    }
  }

  lemma ArchOfImgref(registry: string, tag: string, eula: string, arch: string, other: string)
    requires |arch| == |other|
    ensures HasArch(Image(Imgref(registry, tag, arch), eula), other) <==> arch == other
  {
    var r := Imgref(registry, tag, arch);
    assert r == (registry + ":" + tag) + ("_" + arch);
    assert r[|r| - |arch| - 1..] == "_" + arch;
    assert ("_" + arch)[1..] == arch && ("_" + other)[1..] == other;
  }

  lemma EntriesFiltered(registry: string, s: Source, arch: string)
    requires arch in ALL_ARCHES
    ensures EntriesOf(registry, s, [arch]) == OfArch(EntriesOf(registry, s, ALL_ARCHES), arch)
  {
    PairFiltered(registry, s, "amd64", "arm64", arch);
    assert ALL_ARCHES == ["amd64"] + ["arm64"];
  }

  lemma PairFiltered(registry: string, s: Source, x: string, y: string, arch: string)
    requires |x| == |y| && x != y && (arch == x || arch == y)
    ensures EntriesOf(registry, s, [arch]) == OfArch(EntriesOf(registry, s, [x] + [y]), arch)
  {
    EntriesGrow(registry, s, [], arch);
    EntriesGrow(registry, s, [], x);
    EntriesGrow(registry, s, [x], y);
    assert [] + [x] == [x] && [] + [arch] == [arch];
    var fx, fy := OneEntry(registry, s, x), OneEntry(registry, s, y);
    assert [] + fx == fx;
    OfArchAppend(fx, fy, arch);
    OneOfArch(registry, s, x, arch);
    OneOfArch(registry, s, y, arch);
  }

  lemma OneOfArch(registry: string, s: Source, x: string, arch: string)
    requires |x| == |arch|
    ensures OfArch(OneEntry(registry, s, x), arch) == if x == arch then OneEntry(registry, s, x) else []
  {
    SingleOfArch(Image(Imgref(registry, Tag(s.name), x), s.eula), arch);
    ArchOfImgref(registry, Tag(s.name), s.eula, x, arch);
  }

  function OneEntry(registry: string, s: Source, arch: string): seq<Image> {
    if Lists(s, arch) then [Image(Imgref(registry, Tag(s.name), arch), s.eula)] else []
  }

  lemma EntriesGrow(registry: string, s: Source, arches: seq<string>, arch: string)
    ensures EntriesOf(registry, s, arches + [arch]) == EntriesOf(registry, s, arches) + OneEntry(registry, s, arch)
  {
    assert (arches + [arch])[..|arches|] == arches;
  }

  lemma SingleOfArch(e: Image, arch: string)
    ensures OfArch([e], arch) == if HasArch(e, arch) then [e] else []
    ensures OfArch([], arch) == []
  {
    assert [e][..0] == [];
  }

  lemma {:induction false} FilteredBuild(registry: string, files: seq<Source>, arch: string)
    requires arch in ALL_ARCHES
    ensures Build(registry, files, [arch]) == OfArch(Build(registry, files, ALL_ARCHES), arch)
  {
    if files == [] {
    } else {
      var n := |files| - 1;
      FilteredBuild(registry, files[..n], arch);
      EntriesFiltered(registry, files[n], arch);
      OfArchAppend(Build(registry, files[..n], ALL_ARCHES), EntriesOf(registry, files[n], ALL_ARCHES), arch);
    }
  }

  lemma {:induction false} NoArches(registry: string, files: seq<Source>)
    ensures Build(registry, files, []) == []
  {
    if files == [] {
    } else {
      NoArches(registry, files[..|files| - 1]);
    }
  }

  lemma WantedArches(filter: string)
    ensures Wanted(ALL_ARCHES, filter) ==
            if filter == "" then ALL_ARCHES else if filter in ALL_ARCHES then [filter] else []
  {
    assert "amd64"[1] != "arm64"[1];
    assert ALL_ARCHES[1..] == ["arm64"] && ["arm64"][1..] == [];
    assert Wanted(["arm64"], filter) == if filter == "" || filter == "arm64" then ["arm64"] else [];
  }

  /** Generating for one architecture is filtering the full catalog, order kept; an
      unknown architecture gives the empty catalog. */
  lemma FilterCommutes(registry: string, files: seq<Source>, filter: string)
    requires filter != ""
    ensures Build(registry, files, Wanted(ALL_ARCHES, filter)) ==
            if filter in ALL_ARCHES then OfArch(Build(registry, files, Wanted(ALL_ARCHES, "")), filter) else []
  {
    WantedArches(filter);
    WantedArches("");
    if filter in ALL_ARCHES {
      FilteredBuild(registry, files, filter);
    } else {
      NoArches(registry, files);
    }
  }

  // ---------- the default image ----------

  lemma BuiltNonEmpty(registry: string, files: seq<Source>, arches: seq<string>, e: Image)
    requires e in Build(registry, files, arches)
    ensures e.imgref != ""
  {
    BuildHolds(registry, files, arches, e);
    var s :| s in files && e in EntriesOf(registry, s, arches);
    EntriesHold(registry, s, arches, e);
  }

  /** The default image is empty exactly when the catalog is, which is when no file is
      listed for a wanted architecture. */
  lemma DefaultExactly(registry: string, files: seq<Source>, arches: seq<string>)
    ensures DefaultImgref(Build(registry, files, arches)) == "" <==> Build(registry, files, arches) == []
    ensures Build(registry, files, arches) == [] <==> forall s, a :: s in files && a in arches ==> !Lists(s, a)
  {
    var images := Build(registry, files, arches);
    if images != [] {
      BuiltNonEmpty(registry, files, arches, images[0]);
      BuildHolds(registry, files, arches, images[0]);
      var s :| s in files && images[0] in EntriesOf(registry, s, arches);
      EntriesHold(registry, s, arches, images[0]);
    }
    forall s, a | s in files && a in arches && Lists(s, a) ensures images != [] {
      var e := Image(Imgref(registry, Tag(s.name), a), s.eula);
      EntriesHold(registry, s, arches, e);
      BuildHolds(registry, files, arches, e);
    }
  }

  // ---------- distinct image references ----------

  predicate Distinct(images: seq<Image>) {
    forall i, j :: 0 <= i < j < |images| ==> images[i].imgref != images[j].imgref
  }

  /** Two files of one tag that are both listed for an architecture of the catalog. */
  predicate Collide(a: Source, b: Source, arches: seq<string>) {
    Tag(a.name) == Tag(b.name) && exists arch :: arch in arches && Lists(a, arch) && Lists(b, arch)
  }

  predicate NoCollision(files: seq<Source>, arches: seq<string>) {
    forall i, j :: 0 <= i < j < |files| ==> !Collide(files[i], files[j], arches)
  }

  lemma ImgrefInjective(registry: string, t1: string, a1: string, t2: string, a2: string)
    requires |a1| == |a2|
    ensures Imgref(registry, t1, a1) == Imgref(registry, t2, a2) <==> t1 == t2 && a1 == a2
  {
    var x, y := Imgref(registry, t1, a1), Imgref(registry, t2, a2);
    var n := |registry| + 1;
    assert x[n..|x| - |a1| - 1] == t1 && y[n..|y| - |a2| - 1] == t2;
    assert x[|x| - |a1|..] == a1 && y[|y| - |a2|..] == a2;
  }

  lemma {:induction false} EntriesHold(registry: string, s: Source, arches: seq<string>, e: Image)
    ensures e in EntriesOf(registry, s, arches) <==>
            exists a :: a in arches && Lists(s, a) && e == Image(Imgref(registry, Tag(s.name), a), s.eula)
  {
    if arches == [] {
    } else {
      var n := |arches| - 1;
      EntriesHold(registry, s, arches[..n], e);
      assert forall a :: a in arches <==> a in arches[..n] || a == arches[n];
    }
  }

  lemma {:induction false} BuildHolds(registry: string, files: seq<Source>, arches: seq<string>, e: Image)
    ensures e in Build(registry, files, arches) <==> exists s :: s in files && e in EntriesOf(registry, s, arches)
  {
    if files == [] {
    } else {
      var n := |files| - 1;
      BuildHolds(registry, files[..n], arches, e);
      InLast(files, files[..n], files[n]);
      if e in Build(registry, files[..n], arches) {
        var s :| s in files[..n] && e in EntriesOf(registry, s, arches);
        assert s in files;
      } else if e in EntriesOf(registry, files[n], arches) {
        assert files[n] in files;
      }
    }
  }

  lemma InLast(xs: seq<Source>, init: seq<Source>, last: Source)
    requires xs == init + [last]
    ensures forall x :: x in xs <==> x in init || x == last
  {
  }

  lemma DistinctConcat(xs: seq<Image>, ys: seq<Image>)
    ensures Distinct(xs + ys) <==>
            Distinct(xs) && Distinct(ys) && forall x, y :: x in xs && y in ys ==> x.imgref != y.imgref
  {
    var all := xs + ys;
    if Distinct(all) {
      forall i, j | 0 <= i < j < |ys| ensures ys[i].imgref != ys[j].imgref {
        assert all[|xs| + i] == ys[i] && all[|xs| + j] == ys[j];
      }
      forall i, j | 0 <= i < j < |xs| ensures xs[i].imgref != xs[j].imgref {
        assert all[i] == xs[i] && all[j] == xs[j];
      }
      forall x, y | x in xs && y in ys ensures x.imgref != y.imgref {
        var i :| 0 <= i < |xs| && xs[i] == x;
        var j :| 0 <= j < |ys| && ys[j] == y;
        assert all[i] == x && all[|xs| + j] == y;
      }
    }
    if Distinct(xs) && Distinct(ys) && forall x, y :: x in xs && y in ys ==> x.imgref != y.imgref {
      forall i, j | 0 <= i < j < |all| ensures all[i].imgref != all[j].imgref {
        if i < |xs| <= j {
          assert all[i] in xs && all[j] in ys;
        }
      }
    }
  }

  /** Architecture names of one length, without repetition. */
  predicate GoodArches(arches: seq<string>) {
    && (forall i :: 0 <= i < |arches| ==> |arches[i]| == 5)
    && forall i, j :: 0 <= i < j < |arches| ==> arches[i] != arches[j]
  }

  lemma {:induction false} EntriesDistinct(registry: string, s: Source, arches: seq<string>)
    requires GoodArches(arches)
    ensures Distinct(EntriesOf(registry, s, arches))
  {
    if arches == [] {
    } else {
      var n := |arches| - 1;
      var xs := EntriesOf(registry, s, arches[..n]);
      var ys := if Lists(s, arches[n]) then [Image(Imgref(registry, Tag(s.name), arches[n]), s.eula)] else [];
      EntriesDistinct(registry, s, arches[..n]);
      forall x, y | x in xs && y in ys ensures x.imgref != y.imgref {
        EntriesHold(registry, s, arches[..n], x);
        var a :| a in arches[..n] && Lists(s, a) && x == Image(Imgref(registry, Tag(s.name), a), s.eula);
        ImgrefInjective(registry, Tag(s.name), a, Tag(s.name), arches[n]);
      }
      DistinctConcat(xs, ys);
    }
  }

  lemma CollideExactly(registry: string, a: Source, b: Source, arches: seq<string>)
    requires GoodArches(arches)
    ensures Collide(a, b, arches) <==>
            exists x, y :: x in EntriesOf(registry, a, arches) && y in EntriesOf(registry, b, arches) && x.imgref == y.imgref
  {
    forall x, y | x in EntriesOf(registry, a, arches) && y in EntriesOf(registry, b, arches) && x.imgref == y.imgref
      ensures Collide(a, b, arches)
    {
      EntriesHold(registry, a, arches, x);
      EntriesHold(registry, b, arches, y);
      var p :| p in arches && Lists(a, p) && x == Image(Imgref(registry, Tag(a.name), p), a.eula);
      var q :| q in arches && Lists(b, q) && y == Image(Imgref(registry, Tag(b.name), q), b.eula);
      ImgrefInjective(registry, Tag(a.name), p, Tag(b.name), q);
    }
    if Collide(a, b, arches) {
      var p :| p in arches && Lists(a, p) && Lists(b, p);
      var x, y := Image(Imgref(registry, Tag(a.name), p), a.eula), Image(Imgref(registry, Tag(b.name), p), b.eula);
      EntriesHold(registry, a, arches, x);
      EntriesHold(registry, b, arches, y);
    }
  }

  /** A file's entries avoid the references of the catalog built before it. */
  lemma BuiltApart(registry: string, init: seq<Source>, b: Source, arches: seq<string>)
    requires GoodArches(arches)
    ensures (forall x, y :: x in Build(registry, init, arches) && y in EntriesOf(registry, b, arches) ==> x.imgref != y.imgref)
            <==> forall i :: 0 <= i < |init| ==> !Collide(init[i], b, arches)
  {
    var xs, ys := Build(registry, init, arches), EntriesOf(registry, b, arches);
    if forall i :: 0 <= i < |init| ==> !Collide(init[i], b, arches) {
      forall x, y | x in xs && y in ys ensures x.imgref != y.imgref {
        BuildHolds(registry, init, arches, x);
        var s :| s in init && x in EntriesOf(registry, s, arches);
        CollideExactly(registry, s, b, arches);
      }
    }
    if forall x, y :: x in xs && y in ys ==> x.imgref != y.imgref {
      forall i | 0 <= i < |init| ensures !Collide(init[i], b, arches) {
        var s := init[i];
        assert s in init;
        CollideExactly(registry, s, b, arches);
        if Collide(s, b, arches) {
          var x, y :| x in EntriesOf(registry, s, arches) && y in ys && x.imgref == y.imgref;
          BuildHolds(registry, init, arches, x);
        }
      }
    }
  }

  lemma NoCollisionLast(files: seq<Source>, arches: seq<string>)
    requires files != []
    ensures var n := |files| - 1;
            NoCollision(files, arches) <==>
            NoCollision(files[..n], arches) && forall i :: 0 <= i < n ==> !Collide(files[..n][i], files[n], arches)
  {
  }

  /** The catalog has pairwise distinct references exactly when no two files of one tag
      are listed for one architecture. */
  lemma {:induction false} DistinctExactly(registry: string, files: seq<Source>, arches: seq<string>)
    requires GoodArches(arches)
    ensures Distinct(Build(registry, files, arches)) <==> NoCollision(files, arches)
  {
    if files == [] {
    } else {
      var n := |files| - 1;
      DistinctExactly(registry, files[..n], arches);
      EntriesDistinct(registry, files[n], arches);
      DistinctConcat(Build(registry, files[..n], arches), EntriesOf(registry, files[n], arches));
      BuiltApart(registry, files[..n], files[n], arches);
      NoCollisionLast(files, arches);
    }
  }

  // ---------- the licence tests ----------

  /** eula_required: the first entry with the reference decides. */
  method EulaRequired(images: seq<Image>, imgref: string) returns (required: bool)
    ensures required == GuiRequires(images, imgref)
  {
    if imgref == "" { return false; }
    for i := 0 to |images|
      invariant GuiRequires(images, imgref) == GuiRequires(images[i..], imgref)
    {
      if images[i].imgref == imgref { return images[i].eula != ""; }
      assert images[i..][1..] == images[i + 1..];
    }
    return false;
  }

  function GuiRequires(images: seq<Image>, imgref: string): bool {
    if imgref == "" || images == [] then false
    else if images[0].imgref == imgref then images[0].eula != ""
    else GuiRequires(images[1..], imgref)
  }

  /** image_requires_eula: any entry with the reference and a licence counts. */
  predicate HelperRequires(images: seq<Image>, imgref: string) {
    exists i :: 0 <= i < |images| && images[i].imgref == imgref && images[i].eula != ""
  }

  method ImageRequiresEula(images: seq<Image>, imgref: string) returns (required: bool)
    ensures required <==> HelperRequires(images, imgref)
  {
    for i := 0 to |images|
      invariant forall j :: 0 <= j < i ==> !(images[j].imgref == imgref && images[j].eula != "")
    {
      if images[i].imgref == imgref && images[i].eula != "" { return true; }
    }
    return false;
  }

  /** The GUI's verdict, position by position. */
  lemma {:induction false} GuiFirstMatch(images: seq<Image>, imgref: string)
    ensures GuiRequires(images, imgref) <==>
            imgref != "" && exists i :: 0 <= i < |images| && FirstAt(images, i, imgref) && images[i].eula != ""
  {
    if imgref == "" || images == [] || images[0].imgref == imgref {
      assert images != [] && images[0].imgref == imgref ==> FirstAt(images, 0, imgref);
    } else {
      var rest := images[1..];
      GuiFirstMatch(rest, imgref);
      forall i | 0 <= i < |rest| ensures FirstAt(rest, i, imgref) <==> FirstAt(images, i + 1, imgref) {
        FirstShifts(images, i, imgref);
      }
      assert forall i :: 0 <= i < |images| && FirstAt(images, i, imgref) ==> i > 0 && FirstAt(rest, i - 1, imgref);
    }
  }

  /** Entry i is the first one with the reference. */
  predicate FirstAt(images: seq<Image>, i: nat, imgref: string) {
    i < |images| && images[i].imgref == imgref && forall j :: 0 <= j < i ==> images[j].imgref != imgref
  }

  lemma FirstShifts(images: seq<Image>, i: nat, imgref: string)
    requires i + 1 < |images| && images[0].imgref != imgref
    ensures FirstAt(images[1..], i, imgref) <==> FirstAt(images, i + 1, imgref)
  {
    var rest := images[1..];
    assert forall j :: 0 <= j < i ==> rest[j] == images[j + 1];
    if FirstAt(rest, i, imgref) {
      forall j | 0 <= j < i + 1 ensures images[j].imgref != imgref {
        if j > 0 { assert images[j] == rest[j - 1]; }
      }
    }
  }

  lemma FirstExists(images: seq<Image>, i: nat) returns (first: nat)
    requires i < |images|
    ensures first <= i && FirstAt(images, first, images[i].imgref)
  {
    first := 0;
    while images[first].imgref != images[i].imgref
      invariant first <= i && forall j :: 0 <= j < first ==> images[j].imgref != images[i].imgref
      decreases i - first
    {
      first := first + 1;
    }
  }

  /** What the GUI asks for the helper demands too; on a catalog of distinct references
      the two agree for every chosen image. */
  lemma TestsAgree(images: seq<Image>, imgref: string)
    ensures GuiRequires(images, imgref) ==> HelperRequires(images, imgref)
    ensures Distinct(images) && imgref != "" ==> (GuiRequires(images, imgref) <==> HelperRequires(images, imgref))
  {
    GuiFirstMatch(images, imgref);
    if Distinct(images) && HelperRequires(images, imgref) {
      var i :| 0 <= i < |images| && images[i].imgref == imgref && images[i].eula != "";
      assert FirstAt(images, i, imgref);
    }
  }

  /** The first entry of a reference is free and a later one carries a licence. */
  predicate Masked(images: seq<Image>, i: nat, j: nat) {
    && i < j < |images| && images[i].imgref == images[j].imgref && images[i].eula == "" && images[j].eula != ""
    && FirstAt(images, i, images[i].imgref)
  }

  /** The two tests disagree about a reference exactly when its first entry is free and a
      later one carries a licence. */
  lemma DisagreeExactly(images: seq<Image>, imgref: string)
    requires imgref != ""
    ensures (GuiRequires(images, imgref) <==> HelperRequires(images, imgref))
            <==> !exists i: nat, j: nat :: Masked(images, i, j) && images[i].imgref == imgref
  {
    GuiFirstMatch(images, imgref);
    if HelperRequires(images, imgref) {
      var j: nat :| 0 <= j < |images| && images[j].imgref == imgref && images[j].eula != "";
      var i := FirstExists(images, j);
      if images[i].eula == "" {
        assert Masked(images, i, j);
      } else {
        assert FirstAt(images, i, imgref);
      }
    }
  }

  /** They agree about every reference exactly when no entry is masked. */
  lemma AgreeExactly(images: seq<Image>)
    ensures (forall r :: r != "" ==> (GuiRequires(images, r) <==> HelperRequires(images, r)))
            <==> !exists i: nat, j: nat :: Masked(images, i, j) && images[i].imgref != ""
  {
    forall r | r != ""
      ensures (GuiRequires(images, r) <==> HelperRequires(images, r))
              <==> !exists i: nat, j: nat :: Masked(images, i, j) && images[i].imgref == r
    {
      DisagreeExactly(images, r);
    }
    if i: nat, j: nat :| Masked(images, i, j) && images[i].imgref != "" {
      DisagreeExactly(images, images[i].imgref);
    }
  }

  // ---------- the licence tests on generated catalogs ----------

  /** The licence of the first entry with the reference. */
  function FirstEula(images: seq<Image>, imgref: string): Option<string> {
    if images == [] then None
    else
      var before := FirstEula(images[..|images| - 1], imgref);
      if before.Some? then before
      else if images[|images| - 1].imgref == imgref then Some(images[|images| - 1].eula)
      else None
  }

  lemma {:induction false} FirstEulaAt(images: seq<Image>, imgref: string)
    ensures match FirstEula(images, imgref)
            case None => forall i :: 0 <= i < |images| ==> images[i].imgref != imgref
            case Some(eula) => exists i :: 0 <= i < |images| && FirstAt(images, i, imgref) && images[i].eula == eula
  {
    if images == [] {
    } else {
      var n := |images| - 1;
      FirstEulaAt(images[..n], imgref);
      if FirstEula(images[..n], imgref).Some? {
        var i :| 0 <= i < n && FirstAt(images[..n], i, imgref) && images[..n][i].eula == FirstEula(images[..n], imgref).value;
        assert FirstAt(images, i, imgref);
      } else if images[n].imgref == imgref {
        assert FirstAt(images, n, imgref);
      }
    }
  }

  lemma {:induction false} FirstEulaConcat(xs: seq<Image>, ys: seq<Image>, imgref: string)
    ensures FirstEula(xs + ys, imgref) == if FirstEula(xs, imgref).Some? then FirstEula(xs, imgref) else FirstEula(ys, imgref)
  {
    if ys == [] {
      assert xs + ys == xs;
    } else {
      InitAppend(xs, ys);
      FirstEulaConcat(xs, ys[..|ys| - 1], imgref);
    }
  }

  /** The licence of the first listed file of a tag and an architecture. */
  function FirstListed(files: seq<Source>, tag: string, arch: string): Option<string> {
    if files == [] then None
    else
      var before, last := FirstListed(files[..|files| - 1], tag, arch), files[|files| - 1];
      if before.Some? then before
      else if Tag(last.name) == tag && Lists(last, arch) then Some(last.eula)
      else None
  }

  lemma EntriesFirst(registry: string, s: Source, arches: seq<string>, tag: string, arch: string)
    requires GoodArches(arches) && arch in arches
    ensures FirstEula(EntriesOf(registry, s, arches), Imgref(registry, tag, arch))
            == if Tag(s.name) == tag && Lists(s, arch) then Some(s.eula) else None
  {
    var images, r := EntriesOf(registry, s, arches), Imgref(registry, tag, arch);
    FirstEulaAt(images, r);
    forall e | e in images ensures e.eula == s.eula && (e.imgref == r ==> Tag(s.name) == tag && Lists(s, arch)) {
      EntriesHold(registry, s, arches, e);
      var a :| a in arches && Lists(s, a) && e == Image(Imgref(registry, Tag(s.name), a), s.eula);
      ImgrefInjective(registry, Tag(s.name), a, tag, arch);
    }
    if Tag(s.name) == tag && Lists(s, arch) {
      EntriesHold(registry, s, arches, Image(r, s.eula));
    }
  }

  lemma {:induction false} BuildFirst(registry: string, files: seq<Source>, arches: seq<string>, tag: string, arch: string)
    requires GoodArches(arches) && arch in arches
    ensures FirstEula(Build(registry, files, arches), Imgref(registry, tag, arch)) == FirstListed(files, tag, arch)
  {
    if files == [] {
    } else {
      var n := |files| - 1;
      BuildFirst(registry, files[..n], arches, tag, arch);
      EntriesFirst(registry, files[n], arches, tag, arch);
      FirstEulaConcat(Build(registry, files[..n], arches), EntriesOf(registry, files[n], arches), Imgref(registry, tag, arch));
    }
  }

  lemma GuiByFirst(images: seq<Image>, imgref: string)
    requires imgref != ""
    ensures GuiRequires(images, imgref) <==> FirstEula(images, imgref).Some? && FirstEula(images, imgref) != Some("")
  {
    GuiFirstMatch(images, imgref);
    FirstEulaAt(images, imgref);
  }

  lemma HelperByEntry(images: seq<Image>, imgref: string)
    ensures HelperRequires(images, imgref) <==> exists e :: e in images && e.imgref == imgref && e.eula != ""
  {
    if HelperRequires(images, imgref) {
      var i :| 0 <= i < |images| && images[i].imgref == imgref && images[i].eula != "";
      assert images[i] in images;
    }
  }

  /** A file of the tag, listed for the architecture, that carries a licence. */
  predicate Licensed(s: Source, tag: string, arch: string) {
    Tag(s.name) == tag && Lists(s, arch) && s.eula != ""
  }

  lemma BuildLicensed(registry: string, files: seq<Source>, arches: seq<string>, tag: string, arch: string)
    requires GoodArches(arches) && arch in arches
    ensures HelperRequires(Build(registry, files, arches), Imgref(registry, tag, arch))
            <==> exists s :: s in files && Licensed(s, tag, arch)
  {
    var images, r := Build(registry, files, arches), Imgref(registry, tag, arch);
    HelperByEntry(images, r);
    forall e | e in images && e.imgref == r && e.eula != "" ensures exists s :: s in files && Licensed(s, tag, arch) {
      BuildHolds(registry, files, arches, e);
      var s :| s in files && e in EntriesOf(registry, s, arches);
      EntriesHold(registry, s, arches, e);
      var a :| a in arches && Lists(s, a) && e == Image(Imgref(registry, Tag(s.name), a), s.eula);
      ImgrefInjective(registry, Tag(s.name), a, tag, arch);
      assert Licensed(s, tag, arch);
    }
    forall s | s in files && Licensed(s, tag, arch) ensures exists e :: e in images && e.imgref == r && e.eula != "" {
      EntriesHold(registry, s, arches, Image(r, s.eula));
      BuildHolds(registry, files, arches, Image(r, s.eula));
    }
  }

  /** The first listed file of a tag and an architecture is free and another one listed for
      them carries a licence. */
  ghost predicate FilesMask(files: seq<Source>, tag: string, arch: string) {
    FirstListed(files, tag, arch) == Some("") && exists s :: s in files && Licensed(s, tag, arch)
  }

  lemma {:induction false} LicensedIsListed(files: seq<Source>, tag: string, arch: string, s: Source)
    requires s in files && Tag(s.name) == tag && Lists(s, arch)
    ensures FirstListed(files, tag, arch).Some?
  {
    var n := |files| - 1;
    if s in files[..n] {
      LicensedIsListed(files[..n], tag, arch, s);
    }
  }

  /** On a generated catalog the two tests disagree about the image of a tag and an
      architecture exactly when the files mask a licence. */
  lemma FilesDisagreeExactly(registry: string, files: seq<Source>, arches: seq<string>, tag: string, arch: string)
    requires GoodArches(arches) && arch in arches
    ensures var images, imgref := Build(registry, files, arches), Imgref(registry, tag, arch);
            (GuiRequires(images, imgref) <==> HelperRequires(images, imgref)) <==> !FilesMask(files, tag, arch)
  {
    BuildFirst(registry, files, arches, tag, arch);
    GuiByFirst(Build(registry, files, arches), Imgref(registry, tag, arch));
    BuildLicensed(registry, files, arches, tag, arch);
    TestsAgree(Build(registry, files, arches), Imgref(registry, tag, arch));
    if s :| s in files && Licensed(s, tag, arch) {
      LicensedIsListed(files, tag, arch, s);
    }
  }

  lemma NoEntryAgrees(images: seq<Image>, imgref: string)
    requires forall e :: e in images ==> e.imgref != imgref
    ensures !GuiRequires(images, imgref) && !HelperRequires(images, imgref)
  {
    GuiFirstMatch(images, imgref);
  }

  lemma OtherReferencesAgree(registry: string, files: seq<Source>, arches: seq<string>, imgref: string)
    requires forall tag, arch :: arch in arches ==> imgref != Imgref(registry, tag, arch)
    ensures !GuiRequires(Build(registry, files, arches), imgref) && !HelperRequires(Build(registry, files, arches), imgref)
  {
    forall e | e in Build(registry, files, arches) ensures e.imgref != imgref {
      BuildHolds(registry, files, arches, e);
      var s :| s in files && e in EntriesOf(registry, s, arches);
      EntriesHold(registry, s, arches, e);
    }
    NoEntryAgrees(Build(registry, files, arches), imgref);
  }

  lemma MaskCollides(files: seq<Source>, tag: string, arch: string, arches: seq<string>)
    requires arch in arches && FilesMask(files, tag, arch)
    ensures !NoCollision(files, arches)
  {
    var a := FirstListedFile(files, tag, arch);
    var b :| b in files && Licensed(b, tag, arch);
    var i :| 0 <= i < |files| && files[i] == a;
    var j :| 0 <= j < |files| && files[j] == b;
    assert Collide(a, b, arches) && Collide(b, a, arches);
  }

  lemma {:induction false} FirstListedFile(files: seq<Source>, tag: string, arch: string) returns (s: Source)
    requires FirstListed(files, tag, arch).Some?
    ensures s in files && Tag(s.name) == tag && Lists(s, arch) && FirstListed(files, tag, arch) == Some(s.eula)
  {
    var n := |files| - 1;
    if FirstListed(files[..n], tag, arch).Some? {
      s := FirstListedFile(files[..n], tag, arch);
    } else {
      s := files[n];
    }
  }

  lemma WantedAreGood(filter: string)
    ensures GoodArches(Wanted(ALL_ARCHES, filter))
  {
    WantedArches(filter);
    assert "amd64"[1] != "arm64"[1];
  }

  /** The two tests agree about every reference of a generated catalog exactly when no
      files mask a licence; files without colliding tags never do. */
  lemma GeneratedTestsAgree(registry: string, files: seq<Source>, filter: string)
    ensures var arches := Wanted(ALL_ARCHES, filter);
            var images := Build(registry, files, arches);
            && ((forall r :: r != "" ==> (GuiRequires(images, r) <==> HelperRequires(images, r)))
                <==> !exists tag, arch :: arch in arches && FilesMask(files, tag, arch))
            && (NoCollision(files, arches) ==> !exists tag, arch :: arch in arches && FilesMask(files, tag, arch))
  {
    var arches := Wanted(ALL_ARCHES, filter);
    WantedAreGood(filter);
    if tag, arch :| arch in arches && FilesMask(files, tag, arch) {
      MaskCollides(files, tag, arch, arches);
      FilesDisagreeExactly(registry, files, arches, tag, arch);
      assert Imgref(registry, tag, arch) != "";
    } else {
      forall r | r != "" ensures GuiRequires(Build(registry, files, arches), r) <==> HelperRequires(Build(registry, files, arches), r) {
        UnmaskedAgree(registry, files, arches, r);
      }
    }
  }

  lemma UnmaskedAgree(registry: string, files: seq<Source>, arches: seq<string>, imgref: string)
    requires GoodArches(arches) && forall tag, arch :: arch in arches ==> !FilesMask(files, tag, arch)
    ensures GuiRequires(Build(registry, files, arches), imgref) <==> HelperRequires(Build(registry, files, arches), imgref)
  {
    if tag, arch :| arch in arches && imgref == Imgref(registry, tag, arch) {
      FilesDisagreeExactly(registry, files, arches, tag, arch);
    } else {
      OtherReferencesAgree(registry, files, arches, imgref);
    }
  }

  /** With a licence on the second of two files of one tag only, the GUI does not ask and
      the helper refuses. */
  lemma CollisionDisagrees(registry: string, a: Source, b: Source, arches: seq<string>, arch: string)
    requires Tag(a.name) == Tag(b.name) && a.eula == "" && b.eula != ""
    requires arch in arches && Lists(a, arch) && Lists(b, arch)
    ensures var images, imgref := Build(registry, [a, b], arches), Imgref(registry, Tag(a.name), arch);
            !GuiRequires(images, imgref) && HelperRequires(images, imgref)
  {
    var imgref := Imgref(registry, Tag(a.name), arch);
    var ea, eb := EntriesOf(registry, a, arches), EntriesOf(registry, b, arches);
    BuildGrow(registry, [], a, arches);
    BuildGrow(registry, [a], b, arches);
    assert [] + [a] == [a] && [a] + [b] == [a, b] && [] + ea == ea;
    EntriesHold(registry, a, arches, Image(imgref, ""));
    EntriesHold(registry, b, arches, Image(imgref, b.eula));
    forall e | e in ea ensures e.eula == "" {
      EntriesHold(registry, a, arches, e);
    }
    FirstOpenWins(ea, eb, imgref, b.eula);
  }

  lemma FirstOpenWins(ea: seq<Image>, eb: seq<Image>, imgref: string, eula: string)
    requires Image(imgref, "") in ea && Image(imgref, eula) in eb && eula != ""
    requires forall e :: e in ea ==> e.eula == ""
    ensures !GuiRequires(ea + eb, imgref) && HelperRequires(ea + eb, imgref)
  {
    var images := ea + eb;
    var p :| 0 <= p < |ea| && ea[p] == Image(imgref, "");
    var q :| 0 <= q < |eb| && eb[q] == Image(imgref, eula);
    assert images[p] == ea[p] && images[|ea| + q] == eb[q];
    assert forall i :: 0 <= i < |ea| ==> images[i] == ea[i];
    GuiFirstMatch(images, imgref);
  }

  /** Containerfile and Containerfile.latest are two such files. */
  lemma LatestCollides(registry: string)
    ensures var files := [Source("Containerfile", [], ""), Source("Containerfile.latest", [], "nvidia")];
            var images, imgref := Build(registry, files, ALL_ARCHES), Imgref(registry, "latest", "amd64");
            !GuiRequires(images, imgref) && HelperRequires(images, imgref)
  {
    var a, b := Source("Containerfile", [], ""), Source("Containerfile.latest", [], "nvidia");
    assert b.name[|FILE_STEM| + 1..] == "latest";
    assert ALL_ARCHES[0] in ALL_ARCHES;
    CollisionDisagrees(registry, a, b, ALL_ARCHES, "amd64");
  }

  lemma BuildGrow(registry: string, files: seq<Source>, s: Source, arches: seq<string>)
    ensures Build(registry, files + [s], arches) == Build(registry, files, arches) + EntriesOf(registry, s, arches)
  {
    assert (files + [s])[..|files|] == files;
  }
}
