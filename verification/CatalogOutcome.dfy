/** The catalog of a set of Containerfiles, said on file names, labels and references. */
module CatalogOutcome {
  import opened Text
  import opened Catalog

  /** The tag of a file is what follows `Containerfile.`, and latest for the bare name. */
  lemma TagExactly(t: string)
    ensures Tag("Containerfile." + t) == t && Tag("Containerfile") == "latest"
  {
    var name := "Containerfile." + t;
    assert |name| > |FILE_STEM| && name[|FILE_STEM| + 1..] == t;
  }

  /** The entry of one architecture, when the file's label names it or names none. */
  function Entry(registry: string, t: string, only: seq<string>, eula: string, arch: string): seq<Image> {
    if only == [] || arch in only then [Image(registry + ":" + t + "_" + arch, eula)] else []
  }

  /** The catalog of one file: amd64 before arm64, each only when the label allows it. */
  lemma FileEntries(registry: string, name: string, t: string, only: seq<string>, eula: string)
    requires name == "Containerfile." + t || (name == "Containerfile" && t == "latest")
    ensures var files := [Source(name, only, eula)];
            var amd, arm := Entry(registry, t, only, eula, "amd64"), Entry(registry, t, only, eula, "arm64");
            && Build(registry, files, Wanted(ALL_ARCHES, "")) == amd + arm
            && Build(registry, files, Wanted(ALL_ARCHES, "amd64")) == amd
            && Build(registry, files, Wanted(ALL_ARCHES, "arm64")) == arm
  {
    TagExactly(t);
    var s := Source(name, only, eula);
    WantedArches("");
    WantedArches("amd64");
    WantedArches("arm64");
    assert "amd64" in ALL_ARCHES && ALL_ARCHES[1] == "arm64";
    OneFile(registry, s, ["amd64"]);
    OneFile(registry, s, ["arm64"]);
    OneFile(registry, s, ["amd64", "arm64"]);
    ArchEntries(registry, s, "amd64", "arm64");
  }

  lemma OneFile(registry: string, s: Source, arches: seq<string>)
    ensures Build(registry, [s], arches) == EntriesOf(registry, s, arches)
  {
    BuildGrow(registry, [], s, arches);
    assert [] + [s] == [s];
  }

  lemma ArchEntries(registry: string, s: Source, x: string, y: string)
    ensures EntriesOf(registry, s, [x]) == Entry(registry, Tag(s.name), s.only, s.eula, x)
    ensures EntriesOf(registry, s, [y]) == Entry(registry, Tag(s.name), s.only, s.eula, y)
    ensures EntriesOf(registry, s, [x, y])
            == Entry(registry, Tag(s.name), s.only, s.eula, x) + Entry(registry, Tag(s.name), s.only, s.eula, y)
  {
    EntriesGrow(registry, s, [], x);
    EntriesGrow(registry, s, [], y);
    EntriesGrow(registry, s, [x], y);
    assert [] + [x] == [x] && [] + [y] == [y] && [x] + [y] == [x, y];
  }

  /** A file labelled for amd64 only has its amd64 entry and no arm64 one. */
  lemma AmdOnly(registry: string, t: string, eula: string)
    ensures Build(registry, [Source("Containerfile." + t, ["amd64"], eula)], Wanted(ALL_ARCHES, ""))
            == [Image(registry + ":" + t + "_" + "amd64", eula)]
    ensures Build(registry, [Source("Containerfile." + t, ["amd64"], eula)], Wanted(ALL_ARCHES, "arm64")) == []
  {
    var only := ["amd64"];
    ArchesDiffer();
    assert "arm64" !in only && "amd64" in only;
    FileEntries(registry, "Containerfile." + t, t, only, eula);
  }

  lemma ArchesDiffer()
    ensures "amd64" != "arm64"
  {
    assert "amd64"[1] != "arm64"[1];
  }

  /** The catalog of several files is that of the first ones and then of the others. */
  lemma {:induction false} FilesInOrder(registry: string, files: seq<Source>, more: seq<Source>, arches: seq<string>)
    ensures Build(registry, files + more, arches) == Build(registry, files, arches) + Build(registry, more, arches)
  {
    if more == [] {
      assert files + more == files;
    } else {
      FilesInOrder(registry, files, more[..|more| - 1], arches);
      InitAppend(files, more);
      Associative(Build(registry, files, arches), Build(registry, more[..|more| - 1], arches),
                  EntriesOf(registry, more[|more| - 1], arches));
    }
  }

  /** The default image is the reference of the first file that is listed for the wanted
      architecture: files before it that are labelled for others do not count. */
  lemma DefaultFirst(registry: string, before: seq<Source>, t: string, only: seq<string>, eula: string, after: seq<Source>, arch: string)
    requires arch in {"amd64", "arm64"} && (only == [] || arch in only)
    requires forall s :: s in before ==> s.only != [] && arch !in s.only
    ensures DefaultImgref(Build(registry, before + [Source("Containerfile." + t, only, eula)] + after, Wanted(ALL_ARCHES, arch)))
            == registry + ":" + t + "_" + arch
    ensures DefaultImgref(Build(registry, [], Wanted(ALL_ARCHES, arch))) == ""
  {
    var s, arches := Source("Containerfile." + t, only, eula), Wanted(ALL_ARCHES, arch);
    WantedArches(arch);
    assert ALL_ARCHES[0] == "amd64" && ALL_ARCHES[1] == "arm64";
    FilesInOrder(registry, before + [s], after, arches);
    FilesInOrder(registry, before, [s], arches);
    DefaultExactly(registry, before, arches);
    FileEntries(registry, s.name, t, only, eula);
  }

  /** Without a wanted architecture the amd64 entry of the first listed file comes first. */
  lemma DefaultOfAll(registry: string, before: seq<Source>, t: string, only: seq<string>, eula: string, after: seq<Source>)
    requires only == [] || "amd64" in only || "arm64" in only
    requires forall s :: s in before ==> s.only != [] && "amd64" !in s.only && "arm64" !in s.only
    ensures DefaultImgref(Build(registry, before + [Source("Containerfile." + t, only, eula)] + after, Wanted(ALL_ARCHES, "")))
            == registry + ":" + t + "_" + if only == [] || "amd64" in only then "amd64" else "arm64"
  {
    var s, arches := Source("Containerfile." + t, only, eula), Wanted(ALL_ARCHES, "");
    WantedArches("");
    FilesInOrder(registry, before + [s], after, arches);
    FilesInOrder(registry, before, [s], arches);
    DefaultExactly(registry, before, arches);
    FileEntries(registry, s.name, t, only, eula);
  }

  // ---------- labels ----------

  /** The first line that carries the label decides; without one the value is empty. */
  lemma {:induction false} FirstDecides(before: seq<string>, line: string, after: seq<string>, key: string)
    requires forall l :: l in before ==> LabelValue(l, key).None?
    ensures FirstLabel(before, key) == ""
    ensures LabelValue(line, key).Some? ==> FirstLabel(before + ([line] + after), key) == LabelValue(line, key).value
  {
    if before == [] {
      assert before + ([line] + after) == [line] + after;
    } else {
      TailAppend(before, [line] + after);
      FirstDecides(before[1..], line, after, key);
    }
  }

  /** A line is no label line when its first word is not LABEL or another key follows. */
  lemma OtherLine(line: string, key: string)
    requires (line != "" && line[0] != 'L' && !IsSpace(line[0])) || line == ""
    ensures LabelValue(line, key).None?
  {
    LStripNone(line);
    assert "LABEL"[0] == 'L';
  }

  /** Another key on a label line is not the wanted one. */
  lemma OtherKey(key: string, other: string, rest: string)
    requires other != "" && !IsSpace(other[0])
    requires Free(key, '=') && Free(other, '=') && key != other
    ensures LabelValue("LABEL " + (other + "=" + rest), key).None?
  {
    KeyAhead(key, other, rest);
    LabelCut(key, other + "=" + rest);
  }

  lemma KeyAhead(key: string, other: string, rest: string)
    requires Free(key, '=') && Free(other, '=') && key != other
    ensures !StartsWith(other + "=" + rest, key + "=")
  {
    if StartsWith(other + "=" + rest, key + "=") {
      KeysEqual(key, other, rest, other + "=" + rest);
    }
  }

  lemma KeysEqual(key: string, other: string, rest: string, c: string)
    requires Free(key, '=') && Free(other, '=') && c == other + "=" + rest && StartsWith(c, key + "=")
    ensures key == other
  {
    assert c[..|key| + 1][|key|] == '=' && c[..|key|] == c[..|key| + 1][..|key|] == key;
    FirstSeparator(other, '=', rest);
    assert c[|other|] == '=' && c[..|other|] == other;
  }

  lemma LabelCut(key: string, c: string)
    requires c != "" && !IsSpace(c[0]) && !StartsWith(c, key + "=")
    ensures LabelValue("LABEL " + c, key).None?
  {
    var line, b := "LABEL " + c, " " + c;
    LabelHead(line, b, c);
    assert IsSpace(' ');
    LStripFirst(b, c);
    LStripNone(c);
  }

  lemma LabelHead(line: string, b: string, c: string)
    requires line == "LABEL " + c && b == " " + c
    ensures line[5..] == b && b[1..] == c && LStrip(line) == line
  {
    assert line[0] == 'L' && !IsSpace('L');
    LStripNone(line);
  }
}
