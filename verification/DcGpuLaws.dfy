/** What the linker and the driver loaders see after any sequence of dc-gpu commands. */
module DcGpuLaws {
  import opened Text
  import opened DcGpu

  /** One invocation, with the machine as it was then. */
  datatype Event = Event(env: Env, argv: seq<string>)

  function Run(st: State, events: seq<Event>): State {
    if events == [] then st
    else
      var e := events[|events| - 1];
      Command(e.env, Run(st, events[..|events| - 1]), e.argv).0
  }

  /** The profile and the machine of the last completed set or apply. */
  function LastApplied(st: State, events: seq<Event>): Option<(string, Env)> {
    if events == [] then None
    else
      var e, before := events[|events| - 1], events[..|events| - 1];
      if IsSet(e.argv) then Some((e.argv[1], e.env))
      else if IsApply(e.argv) then Some((Current(Run(st, before)), e.env))
      else LastApplied(st, before)
  }

  function LastSet(events: seq<Event>): Option<string> {
    if events == [] then None
    else if IsSet(events[|events| - 1].argv) then Some(events[|events| - 1].argv[1])
    else LastSet(events[..|events| - 1])
  }

  /** The files the loaders read; the merged ICD directory counts only when the
      environment file points at it. */
  datatype Seen = Seen(
    modload: Option<seq<string>>,
    ldconf: Option<string>,
    envfile: Option<seq<string>>,
    icds: Option<map<string, string>>)

  function Look(st: State): Seen {
    Seen(st.modload, st.ldconf, st.envfile,
         if st.envfile.Some? && OCL_LINE in st.envfile.value then st.ocl else None)
  }

  function Expected(env: Env, profile: string): Seen {
    var prof := Resolve(env, profile);
    if Installed(env, prof) then
      Seen(Some(ModLoad(env, profile)), Some(Prefix(prof) + "/lib"), Some(EnvLines(env, prof)),
           if ShipsOpenCL(env, prof) then Some(Merged(env, prof)) else None)
    else Seen(Some(ModLoad(env, profile)), None, None, None)
  }

  predicate Opens(lines: seq<string>, heads: string) {
    forall line :: line in lines ==> line != "" && line[0] in heads
  }

  lemma LoaderHeads(env: Env, prof: string)
    ensures Opens(VulkanLines(env, prof), "V") && Opens(EglLines(env, prof), "_") && Opens(DriLines(env, prof), "L")
  {
  }

  lemma PathHeads(env: Env, prof: string)
    ensures Opens(PathLines(env, prof), "GV") && Opens([Header(prof)], "#")
  {
  }

  lemma OclLineMarksOpenCL(env: Env, prof: string)
    ensures OCL_LINE in EnvLines(env, prof) <==> ShipsOpenCL(env, prof)
  {
    assert OCL_LINE[0] == 'O';
    LoaderHeads(env, prof);
    PathHeads(env, prof);
    assert forall line :: line in EnvLines(env, prof) <==>
                          || line in [Header(prof)] || line in VulkanLines(env, prof) || line in EglLines(env, prof)
                          || line in DriLines(env, prof) || line in PathLines(env, prof)
                          || (ShipsOpenCL(env, prof) && line == OCL_LINE);
  }

  lemma ApplyShows(env: Env, st: State, profile: string)
    ensures Look(Apply(env, st, profile)) == Expected(env, profile)
  {
    OclLineMarksOpenCL(env, Resolve(env, profile));
  }

  /** History independence: whatever was stored and written before, the linker
      configuration, the environment file, the modules fragment and the ICD directory it
      names are those of the last applied profile on the machine of that moment. */
  lemma {:induction false} HistoryIndependent(st: State, events: seq<Event>)
    requires LastApplied(st, events).Some?
    ensures var (profile, env) := LastApplied(st, events).value;
            Look(Run(st, events)) == Expected(env, profile)
  {
    var e, before := events[|events| - 1], events[..|events| - 1];
    var now := Run(st, before);
    if IsSet(e.argv) {
      ApplyShows(e.env, now.(usage := Some(e.argv[1] + "\n")), e.argv[1]);
    } else if IsApply(e.argv) {
      ApplyShows(e.env, now, Current(now));
    } else {
      HistoryIndependent(st, before);
    }
  }

  /** Without a completed set or apply nothing changes. */
  lemma {:induction false} NothingApplied(st: State, events: seq<Event>)
    requires LastApplied(st, events).None?
    ensures Run(st, events) == st
  {
    if events == [] {
    } else {
      NothingApplied(st, events[..|events| - 1]);
    }
  }

  /** The stored profile is the last one set, so an apply re-applies that one. */
  lemma {:induction false} AppliedIsStored(st: State, events: seq<Event>)
    requires LastSet(events).Some?
    ensures Current(Run(st, events)) == LastSet(events).value
    ensures LastApplied(st, events).Some? && LastApplied(st, events).value.0 == LastSet(events).value
  {
    var e, before := events[|events| - 1], events[..|events| - 1];
    if IsSet(e.argv) {
      var p := e.argv[1];
      assert Chomp(p + "\n") == p by {
        assert (p + "\n")[..|p|] == p;
        assert p[|p| - 1] != '\n';
      }
    } else {
      AppliedIsStored(st, before);
    }
  }

  ghost predicate NamesProfile(st: State, prof: string) {
    && st.ldconf == Some(Prefix(prof) + "/lib")
    && st.envfile.Some? && st.envfile.value != [] && st.envfile.value[0] == Header(prof)
  }

  /** The linker configuration and the environment file both exist or neither does, and
      they name the same profile; when the environment file points at the merged
      directory, it holds exactly the build's ICDs overridden by the host's. */
  lemma FilesAgree(st: State, events: seq<Event>)
    requires LastApplied(st, events).Some?
    ensures var (profile, env) := LastApplied(st, events).value;
            var prof, end := Resolve(env, profile), Run(st, events);
            && (Installed(env, prof) ==> NamesProfile(end, prof))
            && (!Installed(env, prof) ==> end.ldconf == None && end.envfile == None)
            && (end.envfile.Some? && OCL_LINE in end.envfile.value ==> end.ocl == Some(Merged(env, prof)))
  {
    HistoryIndependent(st, events);
    var (profile, env) := LastApplied(st, events).value;
    OclLineMarksOpenCL(env, Resolve(env, profile));
    var end := Run(st, events);
    assert Look(end).envfile == end.envfile && Look(end).ldconf == end.ldconf;
  }

  /** The directory holds an existing ICD of that name. */
  predicate Offers(env: Env, d: string, name: string) {
    exists e :: e in Names(env, d) && e == (name, true) && EndsWith(name, ".icd")
  }

  /** The merged directory has a link for each ICD of the build or the host; it points at
      the host's file when the host has one. */
  lemma MergedExact(env: Env, prof: string, name: string)
    ensures var build, host := Share(prof) + "/etc/OpenCL/vendors", "/etc/OpenCL/vendors";
            && (name in Merged(env, prof) <==> Offers(env, build, name) || Offers(env, host, name))
            && (name in Merged(env, prof) ==>
                  Merged(env, prof)[name] == (if Offers(env, host, name) then host else build) + "/" + name)
  {
    LinksExact(env, Share(prof) + "/etc/OpenCL/vendors", name);
    LinksExact(env, "/etc/OpenCL/vendors", name);
  }

  lemma LinksExact(env: Env, d: string, name: string)
    ensures name in Links(d, Names(env, d)) <==> Offers(env, d, name)
    ensures name in Links(d, Names(env, d)) ==> Links(d, Names(env, d))[name] == d + "/" + name
  {
    if Offers(env, d, name) {
      assert (name, true) in Names(env, d);
    }
    if name in Links(d, Names(env, d)) {
      var e :| e in Names(env, d) && e.1 && EndsWith(e.0, ".icd") && e.0 == name;
      assert e == (name, true);
    }
  }

  /** The boot-time apply changes nothing right after a set on the same machine. */
  lemma SetThenApply(env: Env, st: State, argv: seq<string>)
    requires IsSet(argv)
    ensures var (set', _) := Command(env, st, argv); Command(env, set', ["apply"]).0 == set'
  {
    AppliedIsStored(st, [Event(env, argv)]);
    assert [Event(env, argv)][..0] == [];
  }

  // ---------- status ----------

  /** One line of the linker file under `s|/lib$||; s|.* /||p` (without the blank): what is
      printed of it, if anything is. */
  function SedLine(line: string): Option<string> {
    var l := if EndsWith(line, "/lib") then line[..|line| - 4] else line;
    var i := FindLast(l, '/');
    if i >= 0 then Some(l[i + 1..]) else None
  }

  function SedLines(lines: seq<string>): seq<string> {
    if lines == [] then []
    else (if SedLine(lines[0]).Some? then [SedLine(lines[0]).value] else []) + SedLines(lines[1..])
  }

  /** The profile that status reports. */
  function Active(st: State): string {
    if st.ldconf.Some? then Chomp(Join(SedLines(Split(st.ldconf.value, '\n')), '\n')) else "none"
  }

  lemma SedLineFree(line: string)
    requires SedLine(line).Some?
    ensures Free(SedLine(line).value, '/') && (Free(line, '\n') ==> Free(SedLine(line).value, '\n'))
  {
  }

  lemma SedNone(line: string)
    requires Free(line, '/')
    ensures SedLine(line) == SedLine(line + "/lib") == None
  {
    var x := line + "/lib";
    assert x[..|x| - 4] == line && x[|x| - 4..] == "/lib";
    if EndsWith(line, "/lib") {
      SuffixHolds(line, "/lib", 0);
    }
  }

  lemma SuffixHolds(s: string, suffix: string, i: nat)
    requires EndsWith(s, suffix) && i < |suffix|
    ensures suffix[i] in s
  {
    assert s[|s| - |suffix| + i] == suffix[i];
  }

  lemma SedCons(l: string, rest: seq<string>)
    ensures SedLines([l] + rest) == (if SedLine(l).Some? then [SedLine(l).value] else []) + SedLines(rest)
  {
    assert ([l] + rest)[1..] == rest;
  }

  lemma {:induction false} SedSlashFree(lines: seq<string>)
    ensures forall k :: 0 <= k < |SedLines(lines)| ==> Free(SedLines(lines)[k], '/')
  {
    if lines == [] {
    } else {
      if SedLine(lines[0]).Some? { SedLineFree(lines[0]); }
      SedSlashFree(lines[1..]);
    }
  }

  lemma {:induction false} JoinFree(xs: seq<string>, c: char, d: char)
    requires c != d && forall k :: 0 <= k < |xs| ==> Free(xs[k], d)
    ensures Free(Join(xs, c), d)
  {
    if |xs| <= 1 {
    } else {
      JoinFree(xs[1..], c, d);
    }
  }

  lemma {:induction false} ChompFree(s: string, c: char)
    ensures Free(s, c) ==> Free(Chomp(s), c)
    ensures Free(s, '\n') ==> Chomp(s) == s
  {
    if s == "" || s[|s| - 1] != '\n' {
    } else {
      ChompFree(s[..|s| - 1], c);
    }
  }

  /** The lines after the first one of a profile without slashes print nothing. */
  lemma {:induction false} RestPrintsNothing(q: string)
    requires Free(q, '/')
    ensures SedLines(Split(q + "/lib", '\n')) == []
    decreases |q|
  {
    var i := Find(q, '\n');
    if i == |q| {
      OneSplit(q + "/lib");
      SedNone(q);
      SedCons(q + "/lib", []);
      assert [q + "/lib"] + [] == [q + "/lib"];
    } else {
      RestPrintsNothing(q[i + 1..]);
      LinePrintsNothing(q, i, "/lib", Split(q[i + 1..] + "/lib", '\n'));
    }
  }

  lemma LinePrintsNothing(q: string, i: nat, end: string, lines: seq<string>)
    requires Free(q, '/') && i == Find(q, '\n') < |q| && lines == Split(q[i + 1..] + end, '\n') && SedLines(lines) == []
    ensures SedLines(Split(q + end, '\n')) == []
  {
    SplitCons(q[..i], '\n', q[i + 1..] + end);
    CutAt(q, i, end);
    SedNone(q[..i]);
    SedCons(q[..i], lines);
  }

  lemma CutAt(q: string, i: nat, end: string)
    requires i < |q|
    ensures q + end == q[..i] + [q[i]] + (q[i + 1..] + end)
  {
  }

  lemma OneSplit(line: string)
    requires Free(line, '\n')
    ensures Split(line, '\n') == [line]
  {
    assert line[..|line|] == line;
  }

  lemma Around(head: string, a: string, m: string, b: string, tail: string)
    ensures head + (a + m + b) + tail == head + a + m + (b + tail)
  {
  }

  /** A profile with a newline prints one line. */
  lemma NewlineLost(prof: string)
    requires Free(prof, '/') && !Free(prof, '\n')
    ensures Free(Join(SedLines(Split(Prefix(prof) + "/lib", '\n')), '\n'), '\n')
  {
    var i := Find(prof, '\n');
    var l, rest := Prefix(prof[..i]), prof[i + 1..] + "/lib";
    assert Free(LIBDIR, '\n') && Free("/", '\n') && Free(prof[..i], '\n');
    CutOut(prof, i);
    Around(LIBDIR + "/", prof[..i], ['\n'], prof[i + 1..], "/lib");
    SplitCons(l, '\n', rest);
    RestPrintsNothing(prof[i + 1..]);
    SedCons(l, Split(rest, '\n'));
    if SedLine(l).Some? { SedLineFree(l); }
  }

  lemma ProfilePrinted(prof: string)
    requires Free(prof, '/') && Free(prof, '\n')
    ensures SedLines(Split(Prefix(prof) + "/lib", '\n')) == [prof]
  {
    var line := Prefix(prof) + "/lib";
    assert Free(LIBDIR, '\n') && Free("/", '\n') && Free("/lib", '\n');
    OneSplit(line);
    assert line[..|line| - 4] == Prefix(prof) && line[|line| - 4..] == "/lib";
    LastSeparator(LIBDIR, '/', prof);
    assert Prefix(prof) == LIBDIR + ['/'] + prof;
    assert SedLine(line) == Some(prof);
    assert [line][1..] == [];
  }

  /** What status reports is the profile the linker file was written for, exactly when
      that profile holds no slash and no newline. */
  lemma ActiveReadsBack(st: State, prof: string)
    requires st.ldconf == Some(Prefix(prof) + "/lib")
    ensures Active(st) == prof <==> Free(prof, '/') && Free(prof, '\n')
  {
    var outs := SedLines(Split(Prefix(prof) + "/lib", '\n'));
    SedSlashFree(Split(Prefix(prof) + "/lib", '\n'));
    JoinFree(outs, '\n', '/');
    ChompFree(Join(outs, '\n'), '/');
    if Free(prof, '/') && Free(prof, '\n') {
      ProfilePrinted(prof);
    } else if Free(prof, '/') {
      NewlineLost(prof);
      ChompFree(Join(outs, '\n'), '\n');
    }
  }

  /** A loader that splits a search list at the colons finds the listed files in order,
      exactly when no path holds a colon. */
  lemma SearchListExact(env: Env, prof: string)
    requires Vulkan(env, prof) != []
    ensures Split(Join(Vulkan(env, prof), ':'), ':') == Vulkan(env, prof) <==>
            forall i :: 0 <= i < |Vulkan(env, prof)| ==> Free(Vulkan(env, prof)[i], ':')
  {
    SplitJoinIff(Vulkan(env, prof), ':');
  }

  lemma {:induction false} MatchingExact(d: string, suffix: string, names: seq<(string, bool)>, path: string)
    ensures path in Matching(d, suffix, names) <==>
            exists e :: e in names && e.1 && EndsWith(e.0, suffix) && path == d + "/" + e.0
  {
    if names == [] {
    } else {
      MatchingExact(d, suffix, names[..|names| - 1], path);
      var e := names[|names| - 1];
      assert forall x :: x in names <==> x in names[..|names| - 1] || x == e;
    }
  }

  /** The list holds an existing file with the suffix of each directory, the directories
      in the given order and each in glob order. */
  lemma {:induction false} MatchingAllExact(env: Env, suffix: string, ds: seq<string>, path: string)
    ensures path in MatchingAll(env, suffix, ds) <==>
            exists d, e :: d in ds && e in Names(env, d) && e.1 && EndsWith(e.0, suffix) && path == d + "/" + e.0
  {
    if ds == [] {
    } else {
      var d := ds[|ds| - 1];
      MatchingAllExact(env, suffix, ds[..|ds| - 1], path);
      MatchingExact(d, suffix, Names(env, d), path);
      assert forall x :: x in ds <==> x in ds[..|ds| - 1] || x == d;
    }
  }
}
