/** The debs an apt2ostree derive layers, and the lockfile that lists them. */
module Lockfile {
  import opened Text
  import opened Sorting

  // ---------- collecting the debs ----------

  /** `name.split("_")[0]` */
  function Prefix(name: string): string {
    name[..Find(name, '_')]
  }

  predicate IsDeb(name: string) {
    EndsWith(name, ".deb")
  }

  /** `<pkg>_*.deb` */
  predicate DebOf(pkg: string, name: string) {
    StartsWith(name, pkg + "_") && IsDeb(name)
  }

  /** The outcome of the download for one package: success, and the files it adds. */
  datatype Download = Download(ok: bool, added: set<string>)

  lemma DebPrefix(pkg: string, name: string)
    requires Free(pkg, '_') && DebOf(pkg, name)
    ensures Prefix(name) == pkg
  {
    var n := |pkg|;
    assert name[..n + 1] == pkg + "_";
    assert name[n] == (pkg + "_")[n] && name[..n] == (pkg + "_")[..n] == pkg;
    assert name == pkg + ['_'] + name[n + 1..];
    FirstSeparator(pkg, '_', name[n + 1..]);
  }

  /** A deb whose name prefix is the package. */
  predicate IsFor(pkg: string, name: string) {
    IsDeb(name) && Prefix(name) == pkg
  }

  /** The files before turn i: what each earlier turn downloaded stays. */
  ghost function FilesAt(cached: set<string>, required: seq<string>, down: nat -> Download, i: nat): set<string>
    requires i <= |required|
    decreases i, 0
  {
    if i == 0 then cached
    else
      var before := FilesAt(cached, required, down, i - 1);
      if Served(cached, required, down, i - 1, required[i - 1]) then before else before + down(i - 1).added
  }

  /** Before turn i the package has a deb: a cached one, or one an earlier turn found. */
  ghost predicate Served(cached: set<string>, required: seq<string>, down: nat -> Download, i: nat, pkg: string)
    requires i <= |required|
    decreases i, 2
  {
    || (exists name :: name in cached && IsFor(pkg, name))
    || exists j :: 0 <= j < i && required[j] == pkg && Found(cached, required, down, j)
  }

  /** The download of turn j succeeds and a file of its package is there. */
  ghost predicate Found(cached: set<string>, required: seq<string>, down: nat -> Download, j: nat)
    requires j < |required|
    decreases j, 1
  {
    down(j).ok && exists x :: x in FilesAt(cached, required, down, j) + down(j).added && DebOf(required[j], x)
  }

  /** Turn i leaves its package without a deb. */
  ghost predicate Fails(cached: set<string>, required: seq<string>, down: nat -> Download, i: nat)
    requires i < |required|
  {
    !Served(cached, required, down, i, required[i]) && !Found(cached, required, down, i)
  }

  lemma ServedNext(cached: set<string>, required: seq<string>, down: nat -> Download, i: nat, pkg: string)
    requires i < |required|
    ensures Served(cached, required, down, i + 1, pkg) <==>
            Served(cached, required, down, i, pkg) || (required[i] == pkg && Found(cached, required, down, i))
  {
  }

  predicate Greatest(pkg: string, deb: string, files: set<string>) {
    deb in files && DebOf(pkg, deb) && forall x | x in files :: DebOf(pkg, x) ==> LexLeq(x, deb)
  }

  /** The deb taken for a package: the first cached one when there is one, otherwise the
      last one among the files of the turn that found it. */
  ghost predicate Picked(pkg: string, deb: string, cached: set<string>, required: seq<string>, down: nat -> Download) {
    if exists name :: name in cached && IsFor(pkg, name) then
      deb in cached && IsFor(pkg, deb) && forall name :: name in cached && IsFor(pkg, name) ==> LexLeq(deb, name)
    else exists j :: 0 <= j < |required| && PickedAt(pkg, deb, cached, required, down, j)
  }

  ghost predicate PickedAt(pkg: string, deb: string, cached: set<string>, required: seq<string>, down: nat -> Download, j: nat)
    requires j < |required|
  {
    && required[j] == pkg && !Served(cached, required, down, j, pkg) && down(j).ok
    && Greatest(pkg, deb, FilesAt(cached, required, down, j) + down(j).added)
  }

  lemma FirstIsPicked(pkg: string, deb: string, cached: set<string>, required: seq<string>, down: nat -> Download)
    requires deb in cached && IsFor(pkg, deb)
    requires forall name :: name in cached && IsFor(pkg, name) ==> LexLeq(deb, name)
    ensures Picked(pkg, deb, cached, required, down)
  {
  }

  ghost predicate Taken(debs: map<string, string>, files: set<string>, cached: set<string>, required: seq<string>, down: nat -> Download) {
    forall p :: p in debs ==> debs[p] in files && IsFor(p, debs[p]) && Picked(p, debs[p], cached, required, down)
  }

  lemma TakenGrows(debs: map<string, string>, files: set<string>, more: set<string>, cached: set<string>,
                   required: seq<string>, down: nat -> Download)
    requires Taken(debs, files, cached, required, down) && files <= more
    ensures Taken(debs, more, cached, required, down)
  {
  }

  lemma LastIsGreatest(got: seq<string>, found: set<string>)
    requires TotalOrder(LexLeq) && got != [] && (forall x :: x in got <==> x in found)
    requires forall i, j :: 0 <= i < j < |got| ==> LexLeq(got[i], got[j])
    ensures forall x :: x in found ==> LexLeq(x, got[|got| - 1])
  {
    forall x | x in found ensures LexLeq(x, got[|got| - 1]) {
      assert x in got;
      var i :| 0 <= i < |got| && got[i] == x;
    }
  }

  /** The first element of each key in a sorted list. */
  method FirstOfEach(le: (string, string) -> bool, key: string -> string, names: seq<string>) returns (first: map<string, string>)
    requires TotalOrder(le) && forall i, j :: 0 <= i < j < |names| ==> le(names[i], names[j])
    ensures forall p :: p in first ==> first[p] in names && key(first[p]) == p
    ensures forall j :: 0 <= j < |names| ==> key(names[j]) in first && le(first[key(names[j])], names[j])
  {
    first := map[];
    for i := 0 to |names|
      invariant forall p :: p in first ==> first[p] in names && key(first[p]) == p
      invariant forall p :: p in first ==> forall j :: i <= j < |names| ==> le(first[p], names[j])
      invariant forall j :: 0 <= j < i ==> key(names[j]) in first && le(first[key(names[j])], names[j])
    {
      if key(names[i]) !in first {
        first := first[key(names[i]) := names[i]];
      }
    }
  }

  class Cache {
    var files: set<string>

    /** The first cached deb of each name prefix, in file name order. */
    method FirstDebs() returns (debs: map<string, string>)
      ensures forall p :: p in debs ==> debs[p] in files && IsDeb(debs[p]) && Prefix(debs[p]) == p
      ensures forall name :: name in files && IsDeb(name) ==> Prefix(name) in debs && LexLeq(debs[Prefix(name)], name)
    {
      LexIsTotal();
      var names := SortSet(LexLeq, set name | name in files && IsDeb(name));
      debs := FirstOfEach(LexLeq, Prefix, names);
      forall name | name in files && IsDeb(name) ensures Prefix(name) in debs && LexLeq(debs[Prefix(name)], name) {
        assert name in names;
        var j :| 0 <= j < |names| && names[j] == name;
      }
    }

    /** The last file of a glob, in file name order. */
    method LastMatching(glob: string -> bool) returns (name: Option<string>)
      ensures name.Some? ==> name.value in files && glob(name.value)
      ensures name.Some? ==> forall x :: x in files && glob(x) ==> LexLeq(x, name.value)
      ensures name.None? ==> forall x :: x in files ==> !glob(x)
    {
      LexIsTotal();
      var found := set x | x in files && glob(x);
      var got := SortSet(LexLeq, found);
      if got == [] {
        assert forall x :: x in found ==> x in got;
        assert found == {} && forall x :: x in files && glob(x) ==> x in found;
        return None;
      }
      var last := got[|got| - 1];
      name := Some(last);
      assert last in found;
      LastIsGreatest(got, found);
      assert forall x :: x in files && glob(x) ==> x in found;
    }

    /** One `apt-get download` and the glob after it. */
    method Pull(pkg: string, d: Download) returns (deb: Option<string>)
      requires Free(pkg, '_')
      modifies this
      ensures files == old(files) + d.added
      ensures deb.Some? ==> d.ok && Greatest(pkg, deb.value, files) && IsFor(pkg, deb.value)
      ensures deb.None? ==> !d.ok || forall x :: x in files ==> !DebOf(pkg, x)
    {
      files := files + d.added;
      var got := LastMatching(x => DebOf(pkg, x));
      if !d.ok || got.None? { return None; }
      DebPrefix(pkg, got.value);
      return got;
    }

    /** One turn of the loop: a package without a deb is downloaded; whether it has one now. */
    method Turn(required: seq<string>, down: nat -> Download, i: nat, debs: map<string, string>, ghost cached: set<string>)
        returns (more: map<string, string>, ok: bool)
      requires i < |required| && Free(required[i], '_') && Progress(cached, required, down, i, files, debs)
      modifies this
      ensures Progress(cached, required, down, i + 1, files, more)
      ensures ok <==> !Fails(cached, required, down, i)
    {
      if required[i] in debs {
        KeptTurn(cached, required, down, i, files, debs);
        return debs, true;
      }
      ghost var before := files;
      var got := Pull(required[i], down(i));
      if got.None? {
        FailedTurn(cached, required, down, i, before, debs);
        return debs, false;
      }
      FoundTurn(cached, required, down, i, before, debs, got.value);
      return debs[required[i] := got.value], true;
    }

    /** collected_debs: one deb per required package in order, or failure exactly when some
        turn leaves its package without one. `down(i)` is the download made for package i
        if it is made. */
    method CollectedDebs(required: seq<string>, down: nat -> Download) returns (r: Option<seq<string>>)
      requires forall i :: 0 <= i < |required| ==> Free(required[i], '_')
      modifies this
      ensures files == FilesAt(old(files), required, down, |required|)
      ensures r.None? <==> exists i :: 0 <= i < |required| && Fails(old(files), required, down, i)
      ensures r.Some? ==> |r.value| == |required|
      ensures r.Some? ==> forall i :: 0 <= i < |required| ==> IsFor(required[i], r.value[i]) && r.value[i] in files
      ensures r.Some? ==> forall i :: 0 <= i < |required| ==> Picked(required[i], r.value[i], old(files), required, down)
    {
      ghost var start := files;
      var debs := FirstDebs();
      FirstProgress(files, required, down, debs);
      var missing: seq<string> := [];
      for i := 0 to |required|
        invariant Progress(start, required, down, i, files, debs)
        invariant missing == [] <==> forall j :: 0 <= j < i ==> !Fails(start, required, down, j)
      {
        var ok;
        debs, ok := Turn(required, down, i, debs, start);
        if !ok { missing := missing + [required[i]]; }
      }
      if missing != [] { return None; }
      assert forall i :: 0 <= i < |required| ==> !Fails(start, required, down, i);
      AllServed(start, required, down);
      r := Some(seq(|required|, i requires 0 <= i < |required| && required[i] in debs => debs[required[i]]));
    }
  }

  /** The state of the loop before turn i. */
  ghost predicate Progress(cached: set<string>, required: seq<string>, down: nat -> Download, i: nat,
                           files: set<string>, debs: map<string, string>)
    requires i <= |required|
  {
    && files == FilesAt(cached, required, down, i) && Taken(debs, files, cached, required, down)
    && forall p :: p in debs <==> Served(cached, required, down, i, p)
  }

  lemma FirstProgress(cached: set<string>, required: seq<string>, down: nat -> Download, debs: map<string, string>)
    requires forall p :: p in debs ==> debs[p] in cached && IsDeb(debs[p]) && Prefix(debs[p]) == p
    requires forall name :: name in cached && IsDeb(name) ==> Prefix(name) in debs && LexLeq(debs[Prefix(name)], name)
    ensures Progress(cached, required, down, 0, cached, debs)
  {
    forall p | p in debs ensures Picked(p, debs[p], cached, required, down) {
      FirstIsPicked(p, debs[p], cached, required, down);
    }
    assert forall p :: p in debs ==> IsFor(p, debs[p]);
  }

  lemma ServedTurn(cached: set<string>, required: seq<string>, down: nat -> Download, i: nat, debs: map<string, string>)
    requires i < |required| && forall p :: p in debs <==> Served(cached, required, down, i, p)
    ensures forall p :: Served(cached, required, down, i + 1, p) <==>
                        p in debs || (p == required[i] && Found(cached, required, down, i))
  {
    forall p ensures Served(cached, required, down, i + 1, p) <==> p in debs || (p == required[i] && Found(cached, required, down, i)) {
      ServedNext(cached, required, down, i, p);
    }
  }

  lemma KeptTurn(cached: set<string>, required: seq<string>, down: nat -> Download, i: nat, files: set<string>, debs: map<string, string>)
    requires i < |required| && Progress(cached, required, down, i, files, debs) && required[i] in debs
    ensures Progress(cached, required, down, i + 1, files, debs) && !Fails(cached, required, down, i)
  {
    ServedTurn(cached, required, down, i, debs);
  }

  lemma FailedTurn(cached: set<string>, required: seq<string>, down: nat -> Download, i: nat, files: set<string>, debs: map<string, string>)
    requires i < |required| && Progress(cached, required, down, i, files, debs) && required[i] !in debs
    requires !down(i).ok || forall x :: x in files + down(i).added ==> !DebOf(required[i], x)
    ensures Progress(cached, required, down, i + 1, files + down(i).added, debs) && Fails(cached, required, down, i)
  {
    ServedTurn(cached, required, down, i, debs);
    TakenGrows(debs, files, files + down(i).added, cached, required, down);
  }

  lemma FoundTurn(cached: set<string>, required: seq<string>, down: nat -> Download, i: nat, files: set<string>,
                  debs: map<string, string>, deb: string)
    requires i < |required| && Progress(cached, required, down, i, files, debs) && required[i] !in debs
    requires down(i).ok && Greatest(required[i], deb, files + down(i).added) && IsFor(required[i], deb)
    ensures Progress(cached, required, down, i + 1, files + down(i).added, debs[required[i] := deb])
    ensures !Fails(cached, required, down, i)
  {
    ServedTurn(cached, required, down, i, debs);
    TakenGrows(debs, files, files + down(i).added, cached, required, down);
    LastIsPicked(cached, required, down, i, deb);
    TakenPlus(debs, files + down(i).added, cached, required, down, required[i], deb);
  }

  lemma LastIsPicked(cached: set<string>, required: seq<string>, down: nat -> Download, i: nat, deb: string)
    requires i < |required| && !Served(cached, required, down, i, required[i]) && down(i).ok
    requires Greatest(required[i], deb, FilesAt(cached, required, down, i) + down(i).added)
    ensures Picked(required[i], deb, cached, required, down) && Found(cached, required, down, i)
  {
    assert PickedAt(required[i], deb, cached, required, down, i);
  }

  lemma TakenPlus(debs: map<string, string>, files: set<string>, cached: set<string>, required: seq<string>,
                  down: nat -> Download, pkg: string, deb: string)
    requires Taken(debs, files, cached, required, down)
    requires deb in files && IsFor(pkg, deb) && Picked(pkg, deb, cached, required, down)
    ensures Taken(debs[pkg := deb], files, cached, required, down)
  {
  }

  lemma AllServed(cached: set<string>, required: seq<string>, down: nat -> Download)
    requires forall i :: 0 <= i < |required| ==> !Fails(cached, required, down, i)
    ensures forall i :: 0 <= i < |required| ==> Served(cached, required, down, |required|, required[i])
  {
    forall i | 0 <= i < |required| ensures Served(cached, required, down, |required|, required[i]) {
      assert !Fails(cached, required, down, i);
      ServedLater(cached, required, down, i);
    }
  }

  lemma ServedLater(cached: set<string>, required: seq<string>, down: nat -> Download, i: nat)
    requires i < |required|
    requires Served(cached, required, down, i, required[i]) || Found(cached, required, down, i)
    ensures Served(cached, required, down, |required|, required[i])
  {
  }

  // ---------- the lockfile ----------

  datatype Stanza = Stanza(package: string, version: string, architecture: string, filename: string, sha256: string)

  /** The field lines of one stanza, with the blank line that ends it. */
  function Lines(s: Stanza): seq<string> {
    ["Package: " + s.package, "Version: " + s.version, "Architecture: " + s.architecture,
     "Filename: " + s.filename, "SHA256: " + s.sha256, ""]
  }

  function AllLines(ss: seq<Stanza>): seq<string> {
    if ss == [] then [] else Lines(ss[0]) + AllLines(ss[1..])
  }

  /** The text written to nvidia.lock: each line with its newline. */
  function Written(ss: seq<Stanza>): string {
    Join(AllLines(ss) + [""], '\n')
  }

  predicate OneLiners(s: Stanza) {
    Free(s.package, '\n') && Free(s.version, '\n') && Free(s.architecture, '\n') && Free(s.filename, '\n') && Free(s.sha256, '\n')
  }

  /** A `name: value` line of a control stanza. */
  function Field(line: string): Option<(string, string)> {
    var i := Find(line, ':');
    if i + 1 < |line| && line[i + 1] == ' ' then Some((line[..i], line[i + 2..])) else None
  }

  /** A reader of control stanzas: fields until a blank line. */
  function ReadStanzas(lines: seq<string>, current: map<string, string>): seq<map<string, string>>
    decreases |lines|
  {
    if lines == [] then (if current == map[] then [] else [current])
    else if lines[0] == "" then (if current == map[] then [] else [current]) + ReadStanzas(lines[1..], map[])
    else
      match Field(lines[0])
      case None => ReadStanzas(lines[1..], current)
      case Some((name, value)) => ReadStanzas(lines[1..], current[name := value])
  }

  function Fields(s: Stanza): map<string, string> {
    map["Package" := s.package, "Version" := s.version, "Architecture" := s.architecture,
        "Filename" := s.filename, "SHA256" := s.sha256]
  }

  function AllFields(ss: seq<Stanza>): seq<map<string, string>> {
    if ss == [] then [] else [Fields(ss[0])] + AllFields(ss[1..])
  }

  lemma FieldOf(name: string, value: string)
    requires Free(name, ':')
    ensures Field(name + ": " + value) == Some((name, value)) && name + ": " + value != ""
  {
    var line := name + ": " + value;
    assert line == name + [':'] + (" " + value);
    FirstSeparator(name, ':', " " + value);
    assert line[..|name|] == name && line[|name| + 2..] == value;
  }

  lemma ReadField(name: string, value: string, rest: seq<string>, current: map<string, string>)
    requires Free(name, ':')
    ensures ReadStanzas([name + ": " + value] + rest, current) == ReadStanzas(rest, current[name := value])
  {
    FieldOf(name, value);
    assert ([name + ": " + value] + rest)[1..] == rest;
  }

  lemma ReadBlank(rest: seq<string>, current: map<string, string>)
    requires current != map[]
    ensures ReadStanzas([""] + rest, current) == [current] + ReadStanzas(rest, map[])
  {
    assert ([""] + rest)[1..] == rest;
  }

  lemma ReadOne(s: Stanza, rest: seq<string>)
    ensures ReadStanzas(Lines(s) + rest, map[]) == [Fields(s)] + ReadStanzas(rest, map[])
  {
    var l5 := [""] + rest;
    var l4 := ["SHA256: " + s.sha256] + l5;
    var l3 := ["Filename: " + s.filename] + l4;
    var l2 := ["Architecture: " + s.architecture] + l3;
    var l1 := ["Version: " + s.version] + l2;
    assert Lines(s) + rest == ["Package: " + s.package] + l1;
    var m0: map<string, string> := map[];
    var m1 := m0["Package" := s.package];
    var m2 := m1["Version" := s.version];
    var m3 := m2["Architecture" := s.architecture];
    var m4 := m3["Filename" := s.filename];
    Literals(s);
    ReadField("Package", s.package, l1, m0);
    ReadField("Version", s.version, l2, m1);
    ReadField("Architecture", s.architecture, l3, m2);
    ReadField("Filename", s.filename, l4, m3);
    ReadField("SHA256", s.sha256, l5, m4);
    var m5 := m4["SHA256" := s.sha256];
    assert "SHA256" in m5;
    ReadBlank(rest, m5);
    assert m5 == Fields(s);
  }

  lemma Literals(s: Stanza)
    ensures "Package" + ": " + s.package == "Package: " + s.package
    ensures "Version" + ": " + s.version == "Version: " + s.version
    ensures "Architecture" + ": " + s.architecture == "Architecture: " + s.architecture
    ensures "Filename" + ": " + s.filename == "Filename: " + s.filename
    ensures "SHA256" + ": " + s.sha256 == "SHA256: " + s.sha256
  {
    assert "Package" + ": " == "Package: " && "Version" + ": " == "Version: " && "Architecture" + ": " == "Architecture: "
      && "Filename" + ": " == "Filename: " && "SHA256" + ": " == "SHA256: ";
  }

  lemma {:induction false} ReadAll(ss: seq<Stanza>)
    ensures ReadStanzas(AllLines(ss) + [""], map[]) == AllFields(ss)
  {
    if ss == [] {
      assert [] + [""] == [""] && [""][1..] == [];
    } else {
      ReadAll(ss[1..]);
      ReadOne(ss[0], AllLines(ss[1..]) + [""]);
      assert Lines(ss[0]) + AllLines(ss[1..]) + [""] == Lines(ss[0]) + (AllLines(ss[1..]) + [""]);
    }
  }

  lemma {:induction false} AllLinesFree(ss: seq<Stanza>)
    requires forall i :: 0 <= i < |ss| ==> OneLiners(ss[i])
    ensures forall k :: 0 <= k < |AllLines(ss)| ==> Free(AllLines(ss)[k], '\n')
  {
    if ss == [] {
    } else {
      AllLinesFree(ss[1..]);
      LinesFree(ss[0]);
    }
  }

  lemma LinesFree(s: Stanza)
    requires OneLiners(s)
    ensures forall k :: 0 <= k < |Lines(s)| ==> Free(Lines(s)[k], '\n')
  {
    assert Free("Package: ", '\n') && Free("Version: ", '\n') && Free("Architecture: ", '\n') && Free("Filename: ", '\n')
      && Free("SHA256: ", '\n');
  }

  predicate NewlineFree(m: map<string, string>) {
    forall name :: name in m ==> Free(m[name], '\n')
  }

  lemma FieldFree(line: string)
    requires Free(line, '\n') && Field(line).Some?
    ensures Free(Field(line).value.1, '\n')
  {
  }

  /** A reader of lines never yields a value with a newline. */
  lemma {:induction false} ReadsNoNewline(lines: seq<string>, current: map<string, string>)
    requires NewlineFree(current) && forall k :: 0 <= k < |lines| ==> Free(lines[k], '\n')
    ensures forall i :: 0 <= i < |ReadStanzas(lines, current)| ==> NewlineFree(ReadStanzas(lines, current)[i])
    decreases |lines|
  {
    if lines == [] {
    } else {
      if lines[0] == "" {
        ReadsNoNewline(lines[1..], map[]);
      } else if Field(lines[0]).None? {
        ReadsNoNewline(lines[1..], current);
      } else {
        FieldFree(lines[0]);
        ReadsNoNewline(lines[1..], current[Field(lines[0]).value.0 := Field(lines[0]).value.1]);
      }
    }
  }

  lemma {:induction false} AllFieldsAt(ss: seq<Stanza>, i: nat)
    requires i < |ss|
    ensures i < |AllFields(ss)| && AllFields(ss)[i] == Fields(ss[i])
  {
    if i == 0 {
    } else {
      AllFieldsAt(ss[1..], i - 1);
    }
  }

  lemma FieldsFree(s: Stanza)
    ensures NewlineFree(Fields(s)) ==> OneLiners(s)
  {
    FieldValues(s);
  }

  /** The lockfile parses back to the same records exactly when no field of a stanza
      holds a newline (section 5.1 of Debian Policy). */
  lemma LockfileReadsBack(ss: seq<Stanza>)
    ensures ReadStanzas(Split(Written(ss), '\n'), map[]) == AllFields(ss) <==> forall i :: 0 <= i < |ss| ==> OneLiners(ss[i])
  {
    if forall i :: 0 <= i < |ss| ==> OneLiners(ss[i]) {
      AllLinesFree(ss);
      FreeLast(AllLines(ss));
      SplitJoin(AllLines(ss) + [""], '\n');
      ReadAll(ss);
    }
    if ReadStanzas(Split(Written(ss), '\n'), map[]) == AllFields(ss) {
      ReadsNoNewline(Split(Written(ss), '\n'), map[]);
      forall i | 0 <= i < |ss| ensures OneLiners(ss[i]) {
        AllFieldsAt(ss, i);
        FieldsFree(ss[i]);
      }
    }
  }

  lemma FreeLast(lines: seq<string>)
    requires forall k :: 0 <= k < |lines| ==> Free(lines[k], '\n')
    ensures forall k :: 0 <= k < |lines + [""]| ==> Free((lines + [""])[k], '\n')
  {
  }

  lemma FieldValues(s: Stanza)
    ensures Fields(s)["Package"] == s.package && Fields(s)["Version"] == s.version
      && Fields(s)["Architecture"] == s.architecture && Fields(s)["Filename"] == s.filename && Fields(s)["SHA256"] == s.sha256
  {
    assert "Package"[0] == 'P' && "Version"[0] == 'V' && "Architecture"[0] == 'A' && "Filename"[0] == 'F' && "SHA256"[0] == 'S';
  }

  /** Equal records come from equal stanzas. */
  lemma FieldsInjective(a: Stanza, b: Stanza)
    requires Fields(a) == Fields(b)
    ensures a == b
  {
    FieldValues(a);
    FieldValues(b);
  }

  // ---------- the stanzas of a derive ----------

  /** The stanza of one deb, from the control fields dpkg-deb printed. */
  function StanzaOf(name: string, deb: string, control: map<string, string>, sha256: string): Stanza {
    Stanza(if "Package" in control then control["Package"] else name,
           if "Version" in control then control["Version"] else "",
           if "Architecture" in control then control["Architecture"] else "",
           deb, sha256)
  }

  /** deb is the last of the list with that name. */
  predicate IsLast(key: string -> string, debList: seq<string>, name: string, deb: string) {
    exists j :: && 0 <= j < |debList| && debList[j] == deb && key(deb) == name
                && forall k :: j < k < |debList| ==> key(debList[k]) != name
  }

  lemma LastGrows(key: string -> string, debList: seq<string>, next: string, name: string, deb: string)
    requires if key(next) == name then deb == next else IsLast(key, debList, name, deb)
    ensures IsLast(key, debList + [next], name, deb)
  {
    var more := debList + [next];
    if key(next) == name {
      assert more[|debList|] == deb;
    } else {
      var j :| && 0 <= j < |debList| && debList[j] == deb && key(deb) == name
               && forall k :: j < k < |debList| ==> key(debList[k]) != name;
      assert more[j] == deb;
    }
  }

  /** The name of a deb file is what is before its first underscore. */
  lemma PrefixExactly(name: string, rest: string)
    requires Free(name, '_')
    ensures Prefix(name + "_" + rest) == name
  {
    FirstSeparator(name, '_', rest);
    assert (name + "_" + rest)[..|name|] == name;
  }

  /** The files copied to the mirror, and the last one of each name. */
  method DebTable(key: string -> string, debList: seq<string>) returns (debs: map<string, string>, mirror: set<string>)
    ensures mirror == set deb | deb in debList
    ensures forall n :: n in debs <==> exists j :: 0 <= j < |debList| && key(debList[j]) == n
    ensures forall n :: n in debs ==> IsLast(key, debList, n, debs[n])
  {
    debs, mirror := map[], {};
    for i := 0 to |debList|
      invariant mirror == set deb | deb in debList[..i]
      invariant forall n :: n in debs <==> exists j :: 0 <= j < i && key(debList[j]) == n
      invariant forall n :: n in debs ==> IsLast(key, debList[..i], n, debs[n])
    {
      ghost var before := debs;
      debs := debs[key(debList[i]) := debList[i]];
      mirror := mirror + {debList[i]};
      assert debList[..i + 1] == debList[..i] + [debList[i]];
      forall n | n in debs ensures IsLast(key, debList[..i + 1], n, debs[n]) {
        LastGrows(key, debList[..i], debList[i], n, debs[n]);
      }
    }
    assert debList[..|debList|] == debList;
  }

  /** The name and value of a `name: value` line of dpkg-deb's output. */
  function PrintedField(line: string): Option<(string, string)> {
    var i := FindColon(line);
    if i == |line| then None else Some((line[..i], line[i + 2..]))
  }

  /** The fields of the output; of a repeated one, the last. */
  function ControlFields(lines: seq<string>): map<string, string> {
    if lines == [] then map[]
    else
      var before, field := ControlFields(lines[..|lines| - 1]), PrintedField(lines[|lines| - 1]);
      if field.Some? then before[field.value.0 := field.value.1] else before
  }

  lemma FieldPrinted(lines: seq<string>, name: string, value: string)
    requires Free(name, ':')
    ensures ControlFields(lines + [name + ": " + value]) == ControlFields(lines)[name := value]
  {
    var more := lines + [name + ": " + value];
    FirstColon(name, value);
    assert more[..|more| - 1] == lines && more[|more| - 1] == name + ": " + value;
  }

  /** dpkg-deb prints the three fields of a deb. */
  predicate Prints(output: string, package: string, version: string, architecture: string) {
    && NoBreak(package) && NoBreak(version) && NoBreak(architecture)
    && output == "Package: " + package + "\nVersion: " + version + "\nArchitecture: " + architecture + "\n"
  }

  lemma ThreeLines(x: string, y: string, z: string)
    requires NoBreak(x) && NoBreak(y) && NoBreak(z)
    ensures SplitLines(x + "\n" + (y + "\n" + (z + "\n"))) == [x, y, z]
  {
    assert z + "\n" + "" == z + "\n";
    LineThen(z, "", []);
    LineThen(y, z + "\n", [z]);
    LineThen(x, y + "\n" + (z + "\n"), [y, z]);
  }

  lemma Regrouped(h1: string, p: string, h2: string, v: string, h3: string, a: string)
    ensures (h1 + p) + "\n" + ((h2 + v) + "\n" + ((h3 + a) + "\n"))
            == h1 + p + ("\n" + h2) + v + ("\n" + h3) + a + "\n"
  {
  }

  lemma FieldHeads()
    ensures "Package" + ": " == "Package: " && "Version" + ": " == "Version: " && "Architecture" + ": " == "Architecture: "
    ensures "\n" + "Version: " == "\nVersion: " && "\n" + "Architecture: " == "\nArchitecture: "
    ensures NoBreak("Package: ") && NoBreak("Version: ") && NoBreak("Architecture: ")
    ensures Free("Package", ':') && Free("Version", ':') && Free("Architecture", ':')
  {
  }

  /** The fields read from such an output, whatever they hold but line breaks. */
  lemma PrintedFields(output: string, p: string, v: string, a: string)
    requires Prints(output, p, v, a)
    ensures ControlFields(SplitLines(output)) == map["Package" := p, "Version" := v, "Architecture" := a]
  {
    FieldHeads();
    Regrouped("Package: ", p, "Version: ", v, "Architecture: ", a);
    ThreeLines("Package: " + p, "Version: " + v, "Architecture: " + a);
    ThreeFields("Package", p, "Version", v, "Architecture", a);
  }

  lemma ThreeFields(n1: string, v1: string, n2: string, v2: string, n3: string, v3: string)
    requires Free(n1, ':') && Free(n2, ':') && Free(n3, ':')
    ensures ControlFields([n1 + ": " + v1, n2 + ": " + v2, n3 + ": " + v3]) == map[n1 := v1, n2 := v2, n3 := v3]
  {
    var l1, l2, l3 := n1 + ": " + v1, n2 + ": " + v2, n3 + ": " + v3;
    FieldPrinted([], n1, v1);
    FieldPrinted([l1], n2, v2);
    FieldPrinted([l1, l2], n3, v3);
    assert [] + [l1] == [l1] && [l1] + [l2] == [l1, l2] && [l1, l2] + [l3] == [l1, l2, l3];
  }

  lemma {:induction false} SplitLinesFree(text: string, line: string)
    requires line in SplitLines(text)
    ensures Free(line, '\n')
    decreases |text|
  {
    var i := LineEnd(text);
    if line == text[..i] {
      assert IsLineBreak('\n');
    } else {
      SplitLinesFree(if i == |text| then ""
                     else if text[i] == '\r' && i + 1 < |text| && text[i + 1] == '\n' then text[i + 2..]
                     else text[i + 1..], line);
    }
  }

  lemma {:induction false} FieldsOfLines(lines: seq<string>)
    requires forall line :: line in lines ==> Free(line, '\n')
    ensures NewlineFree(ControlFields(lines))
  {
    if lines == [] {
    } else {
      FieldsOfLines(lines[..|lines| - 1]);
      assert lines[|lines| - 1] in lines;
    }
  }

  /** A control field read from dpkg-deb never holds a newline, so a stanza does not
      unless the file name or the digest does. */
  lemma StanzaOneLine(name: string, deb: string, output: string, sha256: string)
    requires Free(name, '\n') && Free(deb, '\n') && Free(sha256, '\n')
    ensures OneLiners(StanzaOf(name, deb, ControlFields(SplitLines(output)), sha256))
  {
    forall line | line in SplitLines(output) ensures Free(line, '\n') {
      SplitLinesFree(output, line);
    }
    FieldsOfLines(SplitLines(output));
  }

  /** The stanzas of a deb table in name order. */
  method StanzaList(names: seq<string>, debs: map<string, string>, output: string -> string, sha256: string -> string)
      returns (stanzas: seq<Stanza>)
    requires forall i :: 0 <= i < |names| ==> names[i] in debs
    ensures |stanzas| == |names|
    ensures forall i :: 0 <= i < |names| ==>
              var deb := debs[names[i]]; stanzas[i] == StanzaOf(names[i], deb, ControlFields(SplitLines(output(deb))), sha256(deb))
  {
    stanzas := [];
    for i := 0 to |names|
      invariant |stanzas| == i
      invariant forall j :: 0 <= j < i ==>
        var deb := debs[names[j]]; stanzas[j] == StanzaOf(names[j], deb, ControlFields(SplitLines(output(deb))), sha256(deb))
    {
      var deb := debs[names[i]];
      stanzas := stanzas + [StanzaOf(names[i], deb, ControlFields(SplitLines(output(deb))), sha256(deb))];
    }
  }

  lemma NamedPackages(names: seq<string>, stanzas: seq<Stanza>, output: string -> string, sha256: string -> string)
    requires |stanzas| == |names| && forall i :: 0 <= i < |names| ==>
               var deb := stanzas[i].filename;
               && Prefix(deb) == names[i]
               && stanzas[i] == StanzaOf(names[i], deb, ControlFields(SplitLines(output(deb))), sha256(deb))
    ensures (forall i :: 0 <= i < |names| ==> stanzas[i].package == names[i]) <==>
            forall i :: 0 <= i < |names| ==>
              var fields := ControlFields(SplitLines(output(stanzas[i].filename)));
              "Package" in fields ==> fields["Package"] == names[i]
  {
  }

  lemma StanzasReadBack(names: seq<string>, stanzas: seq<Stanza>, output: string -> string, sha256: string -> string)
    requires |stanzas| == |names| && forall i :: 0 <= i < |names| ==>
               var deb := stanzas[i].filename;
               && Prefix(deb) == names[i] && Free(deb, '\n') && Free(sha256(deb), '\n')
               && stanzas[i] == StanzaOf(names[i], deb, ControlFields(SplitLines(output(deb))), sha256(deb))
    ensures ReadStanzas(Split(Written(stanzas), '\n'), map[]) == AllFields(stanzas)
  {
    forall i | 0 <= i < |stanzas| ensures OneLiners(stanzas[i]) {
      var deb := stanzas[i].filename;
      StanzaOneLine(names[i], deb, output(deb), sha256(deb));
    }
    LockfileReadsBack(stanzas);
  }

  /** What a reader of the lockfile finds for a deb whose fields were printed, and for one
      of which dpkg-deb printed nothing. */
  lemma RecordRead(names: seq<string>, stanzas: seq<Stanza>, output: string -> string, sha256: string -> string,
                   i: nat, p: string, v: string, a: string)
    requires i < |stanzas| == |names|
    requires ReadStanzas(Split(Written(stanzas), '\n'), map[]) == AllFields(stanzas)
    requires var deb := stanzas[i].filename;
             stanzas[i] == StanzaOf(names[i], deb, ControlFields(SplitLines(output(deb))), sha256(deb))
    requires var text := output(stanzas[i].filename);
             Prints(text, p, v, a) || (text == "" && p == names[i] && v == "" && a == "")
    ensures var read := ReadStanzas(Split(Written(stanzas), '\n'), map[]);
            i < |read| && read[i] == map["Package" := p, "Version" := v, "Architecture" := a,
                                         "Filename" := stanzas[i].filename, "SHA256" := sha256(stanzas[i].filename)]
  {
    var text := output(stanzas[i].filename);
    AllFieldsAt(stanzas, i);
    if text == "" {
      assert SplitLines("") == [] && ControlFields([]) == map[];
    } else {
      PrintedFields(text, p, v, a);
      assert "Package"[0] == 'P' && "Version"[0] == 'V' && "Architecture"[0] == 'A';
    }
  }

  lemma RecordsRead(names: seq<string>, stanzas: seq<Stanza>, output: string -> string, sha256: string -> string)
    requires |stanzas| == |names|
    requires ReadStanzas(Split(Written(stanzas), '\n'), map[]) == AllFields(stanzas)
    requires forall i :: 0 <= i < |names| ==>
               var deb := stanzas[i].filename;
               stanzas[i] == StanzaOf(names[i], deb, ControlFields(SplitLines(output(deb))), sha256(deb))
    ensures Recorded(ReadStanzas(Split(Written(stanzas), '\n'), map[]), stanzas, output, sha256)
  {
    forall i, p, v, a | 0 <= i < |stanzas| && Prints(output(stanzas[i].filename), p, v, a)
      ensures var read := ReadStanzas(Split(Written(stanzas), '\n'), map[]);
              i < |read| && read[i] == map["Package" := p, "Version" := v, "Architecture" := a,
                                           "Filename" := stanzas[i].filename, "SHA256" := sha256(stanzas[i].filename)]
    {
      RecordRead(names, stanzas, output, sha256, i, p, v, a);
    }
  }

  /** The records read from the lockfile hold the fields dpkg-deb printed, the file name
      and the digest. */
  ghost predicate Recorded(read: seq<map<string, string>>, stanzas: seq<Stanza>, output: string -> string, sha256: string -> string) {
    forall i, p, v, a :: 0 <= i < |stanzas| && Prints(output(stanzas[i].filename), p, v, a) ==>
      i < |read| && read[i] == map["Package" := p, "Version" := v, "Architecture" := a,
                                   "Filename" := stanzas[i].filename, "SHA256" := sha256(stanzas[i].filename)]
  }

  lemma WrittenReadsBack(names: seq<string>, stanzas: seq<Stanza>, debList: seq<string>,
                         output: string -> string, sha256: string -> string)
    requires |stanzas| == |names| && forall i :: 0 <= i < |names| ==>
               var deb := stanzas[i].filename;
               && Prefix(deb) == names[i] && deb in debList
               && stanzas[i] == StanzaOf(names[i], deb, ControlFields(SplitLines(output(deb))), sha256(deb))
    ensures (forall deb :: deb in debList ==> Free(deb, '\n') && Free(sha256(deb), '\n')) ==>
              && ReadStanzas(Split(Written(stanzas), '\n'), map[]) == AllFields(stanzas)
              && Recorded(ReadStanzas(Split(Written(stanzas), '\n'), map[]), stanzas, output, sha256)
  {
    if forall deb :: deb in debList ==> Free(deb, '\n') && Free(sha256(deb), '\n') {
      StanzasReadBack(names, stanzas, output, sha256);
      RecordsRead(names, stanzas, output, sha256);
    }
  }

  /** The stanzas of a derive in name order; `output` is what dpkg-deb prints of a file.
      The driver's package list is `names`; each deb is copied to the mirror under its file
      name. A stanza is named after its package exactly when the control field agrees with
      the file name. When file names and digests hold no newline, the written file reads
      back: each record holds the fields dpkg-deb printed, the file and its digest. */
  method LockStanzas(debList: seq<string>, output: string -> string, sha256: string -> string)
      returns (names: seq<string>, stanzas: seq<Stanza>, mirror: set<string>)
    ensures mirror == set deb | deb in debList
    ensures forall n :: n in names <==> exists i :: 0 <= i < |debList| && Prefix(debList[i]) == n
    ensures forall i, j :: 0 <= i < j < |names| ==> LexLeq(names[i], names[j]) && names[i] != names[j]
    ensures |stanzas| == |names|
    ensures forall i :: 0 <= i < |names| ==> stanzas[i].filename in mirror && Prefix(stanzas[i].filename) == names[i]
    ensures forall i :: 0 <= i < |names| ==>
              var deb := stanzas[i].filename;
              stanzas[i] == StanzaOf(names[i], deb, ControlFields(SplitLines(output(deb))), sha256(deb))
    ensures (forall i :: 0 <= i < |names| ==> stanzas[i].package == names[i]) <==>
            forall i :: 0 <= i < |names| ==>
              var fields := ControlFields(SplitLines(output(stanzas[i].filename)));
              "Package" in fields ==> fields["Package"] == names[i]
    ensures (forall deb :: deb in debList ==> Free(deb, '\n') && Free(sha256(deb), '\n')) ==>
              && ReadStanzas(Split(Written(stanzas), '\n'), map[]) == AllFields(stanzas)
              && Recorded(ReadStanzas(Split(Written(stanzas), '\n'), map[]), stanzas, output, sha256)
    ensures forall i :: 0 <= i < |names| ==> IsLast(Prefix, debList, names[i], stanzas[i].filename)
  {
    var debs: map<string, string>;
    debs, mirror := DebTable(Prefix, debList);
    LexIsTotal();
    names := SortSet(LexLeq, debs.Keys);
    assert forall i :: 0 <= i < |names| ==> names[i] in names;
    stanzas := StanzaList(names, debs, output, sha256);
    NamedPackages(names, stanzas, output, sha256);
    WrittenReadsBack(names, stanzas, debList, output, sha256);
  }
}
