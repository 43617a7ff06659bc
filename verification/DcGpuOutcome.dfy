/** What the files of dc-gpu hold after any sequence of commands, said on the sysfs texts
    and on the paths alone. */
module DcGpuOutcome {
  import opened Text
  import opened DcGpu
  import opened DcGpuLaws
  import opened DcGpuScript

  // ---------- what the machine says ----------

  /** A readable card with that PCI vendor id. */
  predicate HasVendor(env: Env, id: string) {
    exists i :: 0 <= i < |env.cards| && env.cards[i].Some? && Reads(env.cards[i].value, id)
  }

  /** A readable connector that is connected. */
  predicate HasDisplay(env: Env) {
    exists i :: 0 <= i < |env.connectors| && env.connectors[i].Some? && Reads(env.connectors[i].value, "connected")
  }

  lemma VendorOf(id: string, vendor: string)
    ensures VendorName(id) == Some(vendor) <==>
              || (vendor == "amd" && Reads(id, "0x1002"))
              || (vendor == "intel" && Reads(id, "0x8086"))
              || (vendor == "nvidia" && Reads(id, "0x10de"))
  {
    ChompReads(id, "0x1002");
    ChompReads(id, "0x8086");
    ChompReads(id, "0x10de");
  }

  /** The three vendors and their PCI ids. */
  lemma DetectedExactly(env: Env, vendor: string)
    ensures Detected(env, vendor) <==>
              || (vendor == "amd" && HasVendor(env, "0x1002"))
              || (vendor == "intel" && HasVendor(env, "0x8086"))
              || (vendor == "nvidia" && HasVendor(env, "0x10de"))
  {
    forall i | 0 <= i < |env.cards| && env.cards[i].Some?
      ensures VendorName(env.cards[i].value) == Some(vendor) <==>
                || (vendor == "amd" && Reads(env.cards[i].value, "0x1002"))
                || (vendor == "intel" && Reads(env.cards[i].value, "0x8086"))
                || (vendor == "nvidia" && Reads(env.cards[i].value, "0x10de"))
    {
      VendorOf(env.cards[i].value, vendor);
    }
  }

  lemma ConnectedExactly(env: Env)
    ensures Connected(env) <==> HasDisplay(env)
  {
    forall i | 0 <= i < |env.connectors| && env.connectors[i].Some?
      ensures Chomp(env.connectors[i].value) == "connected" <==> Reads(env.connectors[i].value, "connected")
    {
      ChompReads(env.connectors[i].value, "connected");
    }
  }

  // ---------- the command line ----------

  predicate Sets(argv: seq<string>, profile: string) {
    profile in {"gaming", "ia", "auto"} && argv == ["set", profile]
  }

  predicate SetsAny(argv: seq<string>) {
    Sets(argv, "gaming") || Sets(argv, "ia") || Sets(argv, "auto")
  }

  lemma SetExactly(argv: seq<string>)
    ensures IsSet(argv) <==> SetsAny(argv)
    ensures IsSet(argv) ==> Sets(argv, argv[1])
  {
    if IsSet(argv) {
      assert argv == ["set", argv[1]];
    }
  }

  /** The exit status is 0 for `set` of the three profiles, `apply` alone, and `status`
      with anything after it; any other command line exits 2 and, like `status`, writes
      nothing. Only `set` stores a profile. */
  lemma CommandLine(env: Env, st: State, argv: seq<string>)
    ensures var (end, status) := Command(env, st, argv);
            && (status == 0 <==> SetsAny(argv) || argv == ["apply"] || (argv != [] && argv[0] == "status"))
            && (status != 0 ==> status == 2)
            && (!SetsAny(argv) && argv != ["apply"] ==> end == st)
            && end.usage == (if SetsAny(argv) then Some(argv[1] + "\n") else st.usage)
  {
    SetExactly(argv);
  }

  // ---------- the profile of the last application ----------

  /** The profile that an `apply` after these events would use. */
  ghost predicate Stored(st: State, events: seq<Event>, profile: string) {
    || (exists j :: && 0 <= j < |events| && Sets(events[j].argv, profile)
                    && forall k :: j < k < |events| ==> !SetsAny(events[k].argv))
    || (&& (forall k :: 0 <= k < |events| ==> !SetsAny(events[k].argv))
        && (profile == "" || profile[|profile| - 1] != '\n')
        && if st.usage.Some? then Reads(st.usage.value, profile) else profile == "auto")
  }

  /** Event i is the last `set` or `apply`, and it applied that profile. */
  ghost predicate AppliedAt(st: State, events: seq<Event>, i: nat, profile: string) {
    && i < |events|
    && (forall k :: i < k < |events| ==> !SetsAny(events[k].argv) && events[k].argv != ["apply"])
    && (Sets(events[i].argv, profile) || (events[i].argv == ["apply"] && Stored(st, events[..i], profile)))
  }

  lemma {:induction false} SetFound(events: seq<Event>, j: nat, profile: string)
    requires j < |events| && Sets(events[j].argv, profile)
    requires forall k :: j < k < |events| ==> !SetsAny(events[k].argv)
    ensures LastSet(events) == Some(profile)
  {
    SetExactly(events[|events| - 1].argv);
    if j < |events| - 1 {
      assert !SetsAny(events[|events| - 1].argv);
      SetFound(events[..|events| - 1], j, profile);
    }
  }

  lemma {:induction false} UsageKept(st: State, events: seq<Event>)
    requires forall k :: 0 <= k < |events| ==> !SetsAny(events[k].argv)
    ensures Run(st, events).usage == st.usage
  {
    if events == [] {
    } else {
      var e, before := events[|events| - 1], events[..|events| - 1];
      UsageKept(st, before);
      CommandLine(e.env, Run(st, before), e.argv);
    }
  }

  lemma StoredExactly(st: State, events: seq<Event>, profile: string)
    requires Stored(st, events, profile)
    ensures Current(Run(st, events)) == profile
  {
    if j :| 0 <= j < |events| && Sets(events[j].argv, profile) && forall k :: j < k < |events| ==> !SetsAny(events[k].argv) {
      SetFound(events, j, profile);
      AppliedIsStored(st, events);
    } else {
      UsageKept(st, events);
      if st.usage.Some? { ChompReads(st.usage.value, profile); }
    }
  }

  lemma {:induction false} AppliedExactly(st: State, events: seq<Event>, i: nat, profile: string)
    requires AppliedAt(st, events, i, profile)
    ensures LastApplied(st, events) == Some((profile, events[i].env))
  {
    var e, before := events[|events| - 1], events[..|events| - 1];
    SetExactly(e.argv);
    if i == |events| - 1 {
      if !Sets(e.argv, profile) { StoredExactly(st, before, profile); }
    } else {
      assert before[..i] == events[..i];
      AppliedExactly(st, before, i, profile);
    }
  }

  // ---------- the files ----------

  /** The linker and the loaders are pointed at the build of prof, or at none when that
      build is not installed. */
  predicate PointsAt(env: Env, st: State, prof: string) {
    var lib := "/usr/lib/dc-gpu/" + prof + "/lib";
    if lib in env.dirs then
      && st.ldconf == Some(lib)
      && st.envfile.Some? && st.envfile.value != []
      && st.envfile.value[0] == "# Written by dc-gpu for userspace profile " + prof
    else st.ldconf == None && st.envfile == None
  }

  /** After any commands the last applied profile decides: a connected display makes
      "auto" point at gaming and its absence at ia, any other profile at itself; the
      NVIDIA modules are loaded when the device and the consent are there and the
      profile is not gaming, and only then. */
  lemma ProfileDecides(st: State, events: seq<Event>, i: nat, profile: string)
    requires AppliedAt(st, events, i, profile)
    ensures var env, end := events[i].env, Run(st, events);
            && (profile == "auto" && HasDisplay(env) ==> PointsAt(env, end, "gaming"))
            && (profile == "auto" && !HasDisplay(env) ==> PointsAt(env, end, "ia"))
            && (profile != "auto" ==> PointsAt(env, end, profile))
            && end.modload == Some(["# Written by dc-gpu for profile " + profile]
                                   + if HasVendor(env, "0x10de") && env.consent && profile != "gaming"
                                     then ["nvidia", "nvidia_uvm", "nvidia_drm"] else [])
  {
    var env := events[i].env;
    AppliedExactly(st, events, i, profile);
    HistoryIndependent(st, events);
    FilesAgree(st, events);
    ConnectedExactly(env);
    DetectedExactly(env, "nvidia");
    Paths(profile);
    Paths("gaming");
    Paths("ia");
    assert Look(Run(st, events)).modload == Run(st, events).modload;
  }

  lemma Paths(prof: string)
    ensures Prefix(prof) == "/usr/lib/dc-gpu/" + prof && Share(prof) == "/usr/share/dc-gpu/" + prof
    ensures Header(prof) == "# Written by dc-gpu for userspace profile " + prof
  {
    assert LIBDIR + "/" == "/usr/lib/dc-gpu/" && SHAREDIR + "/" == "/usr/share/dc-gpu/";
  }

  /** The build that a profile resolves to on a machine. */
  predicate Chosen(env: Env, profile: string, prof: string) {
    prof == if profile != "auto" then profile else if HasDisplay(env) then "gaming" else "ia"
  }

  /** The line of a search list that is not empty. */
  predicate SearchVariable(env: Env, share: string, line: string) {
    var vk := MatchingAll(env, ".json", [share + "/vulkan/icd.d", "/etc/vulkan/icd.d", "/usr/share/vulkan/icd.d"]);
    var egl := Existing(env, [share + "/glvnd/egl_vendor.d", "/etc/glvnd/egl_vendor.d", "/usr/share/glvnd/egl_vendor.d"]);
    || (vk != [] && line in {"VK_DRIVER_FILES=" + Join(vk, ':'), "VK_ICD_FILENAMES=" + Join(vk, ':')})
    || (egl != [] && line == "__EGL_VENDOR_LIBRARY_DIRS=" + Join(egl, ':'))
  }

  /** The line of a part that the build ships under its prefix. */
  predicate BuildVariable(env: Env, prefix: string, line: string) {
    var va := [prefix + "/lib/dri"] + Existing(env, env.driDirs + ["/usr/lib/dri"]);
    || (prefix + "/lib/dri" in env.dirs
        && line in {"LIBGL_DRIVERS_PATH=" + prefix + "/lib/dri", "LIBVA_DRIVERS_PATH=" + Join(va, ':')})
    || (prefix + "/lib/gbm" in env.dirs && line == "GBM_BACKENDS_PATH=" + prefix + "/lib/gbm")
    || (prefix + "/lib/vdpau" in env.dirs && line == "VDPAU_DRIVER_PATH=" + prefix + "/lib/vdpau")
  }

  /** A line of the environment file of prof. */
  predicate Variable(env: Env, prof: string, line: string) {
    || line == "# Written by dc-gpu for userspace profile " + prof
    || SearchVariable(env, "/usr/share/dc-gpu/" + prof, line)
    || BuildVariable(env, "/usr/lib/dc-gpu/" + prof, line)
    || ("/usr/share/dc-gpu/" + prof + "/etc/OpenCL/vendors" in env.dirs
        && line == "OCL_ICD_VENDORS=/etc/dc-gpu/OpenCL/vendors")
  }

  lemma SearchLinesExactly(env: Env, prof: string, share: string, line: string)
    requires share == "/usr/share/dc-gpu/" + prof
    ensures line in VulkanLines(env, prof) || line in EglLines(env, prof) <==> SearchVariable(env, share, line)
  {
    Paths(prof);
    var vk, egl := Vulkan(env, prof), Egl(env, prof);
    MatchingAllNonEmpty(env, ".json", [share + "/vulkan/icd.d", "/etc/vulkan/icd.d", "/usr/share/vulkan/icd.d"]);
    ExistingNonEmpty(env, [share + "/glvnd/egl_vendor.d", "/etc/glvnd/egl_vendor.d", "/usr/share/glvnd/egl_vendor.d"]);
    JoinNonEmpty(vk, ':');
    JoinNonEmpty(egl, ':');
  }

  lemma BuildLinesExactly(env: Env, prof: string, prefix: string, line: string)
    requires prefix == "/usr/lib/dc-gpu/" + prof
    ensures line in DriLines(env, prof) || line in PathLines(env, prof) <==> BuildVariable(env, prefix, line)
  {
    Paths(prof);
  }

  lemma LinesSplit(env: Env, prof: string, line: string)
    ensures line in EnvLines(env, prof) <==>
              || line in [Header(prof)] || line in VulkanLines(env, prof) || line in EglLines(env, prof)
              || line in DriLines(env, prof) || line in PathLines(env, prof)
              || (ShipsOpenCL(env, prof) && line == OCL_LINE)
  {
  }

  lemma LinesExactly(env: Env, prof: string, line: string)
    ensures line in EnvLines(env, prof) <==> Variable(env, prof, line)
  {
    Paths(prof);
    LinesSplit(env, prof, line);
    SearchLinesExactly(env, prof, "/usr/share/dc-gpu/" + prof, line);
    BuildLinesExactly(env, prof, "/usr/lib/dc-gpu/" + prof, line);
    OclLine();
  }

  lemma OclLine()
    ensures OCL_LINE == "OCL_ICD_VENDORS=/etc/dc-gpu/OpenCL/vendors"
  {
  }

  /** The environment file of an installed build has exactly the lines of the parts that
      the build or the host offers. */
  lemma VariablesExactly(st: State, events: seq<Event>, i: nat, profile: string, prof: string, line: string)
    requires AppliedAt(st, events, i, profile) && Chosen(events[i].env, profile, prof)
    requires "/usr/lib/dc-gpu/" + prof + "/lib" in events[i].env.dirs
    ensures Run(st, events).envfile.Some?
    ensures line in Run(st, events).envfile.value <==> Variable(events[i].env, prof, line)
  {
    var env := events[i].env;
    AppliedExactly(st, events, i, profile);
    HistoryIndependent(st, events);
    ConnectedExactly(env);
    Paths(prof);
    assert Look(Run(st, events)).envfile == Run(st, events).envfile;
    LinesExactly(env, prof, line);
  }

  // ---------- search lists and merged ICDs ----------

  /** A search list is built directory by directory and file by file: concatenation of
      directories and of listings is concatenation of the lists, and one file counts
      when it exists and has the suffix. */
  lemma SearchListLaws(env: Env, suffix: string, d: string, ds: seq<string>, more: seq<string>,
                       name: (string, bool), names: seq<(string, bool)>, rest: seq<(string, bool)>)
    ensures MatchingAll(env, suffix, ds + more) == MatchingAll(env, suffix, ds) + MatchingAll(env, suffix, more)
    ensures MatchingAll(env, suffix, [d]) == if d in env.names then Matching(d, suffix, env.names[d]) else []
    ensures Matching(d, suffix, names + rest) == Matching(d, suffix, names) + Matching(d, suffix, rest)
    ensures Matching(d, suffix, [name]) == if name.1 && EndsWith(name.0, suffix) then [d + "/" + name.0] else []
  {
    AllAppend(env, suffix, ds, more);
    MatchingAppend(d, suffix, names, rest);
    assert [d][..0] == [] && [name][..0] == [];
  }

  lemma {:induction false} AllAppend(env: Env, suffix: string, ds: seq<string>, more: seq<string>)
    ensures MatchingAll(env, suffix, ds + more) == MatchingAll(env, suffix, ds) + MatchingAll(env, suffix, more)
  {
    if more == [] {
      assert ds + more == ds;
    } else {
      AllAppend(env, suffix, ds, more[..|more| - 1]);
      InitAppend(ds, more);
    }
  }

  lemma {:induction false} MatchingAppend(d: string, suffix: string, names: seq<(string, bool)>, rest: seq<(string, bool)>)
    ensures Matching(d, suffix, names + rest) == Matching(d, suffix, names) + Matching(d, suffix, rest)
  {
    if rest == [] {
      assert names + rest == names;
    } else {
      MatchingAppend(d, suffix, names, rest[..|rest| - 1]);
      InitAppend(names, rest);
    }
  }

  /** The directories of a list that exist, in order. */
  lemma {:induction false} ExistingLaws(env: Env, d: string, ds: seq<string>, more: seq<string>)
    ensures Existing(env, ds + more) == Existing(env, ds) + Existing(env, more)
    ensures Existing(env, [d]) == if d in env.dirs then [d] else []
  {
    assert [d][..0] == [];
    if more == [] {
      assert ds + more == ds;
    } else {
      ExistingLaws(env, d, ds, more[..|more| - 1]);
      InitAppend(ds, more);
    }
  }

  /** An existing ICD of that name in d. */
  predicate HasIcd(env: Env, d: string, name: string) {
    d in env.names && (name, true) in env.names[d] && |name| >= 4 && name[|name| - 4..] == ".icd"
  }

  /** When the build ships ICDs, the merged directory links each ICD of the build or of
      the host by name, to the host's file when there is one. */
  lemma IcdsExactly(st: State, events: seq<Event>, i: nat, profile: string, prof: string, name: string)
    requires AppliedAt(st, events, i, profile) && Chosen(events[i].env, profile, prof)
    requires "/usr/lib/dc-gpu/" + prof + "/lib" in events[i].env.dirs
    requires "/usr/share/dc-gpu/" + prof + "/etc/OpenCL/vendors" in events[i].env.dirs
    ensures Run(st, events).ocl.Some?
    ensures var env, ocl := events[i].env, Run(st, events).ocl.value;
            var build, host := "/usr/share/dc-gpu/" + prof + "/etc/OpenCL/vendors", "/etc/OpenCL/vendors";
            && (name in ocl <==> HasIcd(env, build, name) || HasIcd(env, host, name))
            && (name in ocl ==> ocl[name] == (if HasIcd(env, host, name) then host else build) + "/" + name)
  {
    Paths(prof);
    MergedShown(st, events, i, profile, prof);
    MergedIcds(events[i].env, prof, name);
  }

  lemma MergedShown(st: State, events: seq<Event>, i: nat, profile: string, prof: string)
    requires AppliedAt(st, events, i, profile) && Chosen(events[i].env, profile, prof)
    requires Installed(events[i].env, prof) && ShipsOpenCL(events[i].env, prof)
    ensures Run(st, events).ocl == Some(Merged(events[i].env, prof))
  {
    var env, end := events[i].env, Run(st, events);
    AppliedExactly(st, events, i, profile);
    HistoryIndependent(st, events);
    ConnectedExactly(env);
    assert Look(end).icds == Some(Merged(env, prof));
  }

  lemma MergedIcds(env: Env, prof: string, name: string)
    ensures var build, host := "/usr/share/dc-gpu/" + prof + "/etc/OpenCL/vendors", "/etc/OpenCL/vendors";
            && (name in Merged(env, prof) <==> HasIcd(env, build, name) || HasIcd(env, host, name))
            && (name in Merged(env, prof) ==>
                  Merged(env, prof)[name] == (if HasIcd(env, host, name) then host else build) + "/" + name)
  {
    Paths(prof);
    MergedExact(env, prof, name);
    OffersExactly(env, "/usr/share/dc-gpu/" + prof + "/etc/OpenCL/vendors", name);
    OffersExactly(env, "/etc/OpenCL/vendors", name);
  }

  lemma OffersExactly(env: Env, d: string, name: string)
    ensures Offers(env, d, name) <==> HasIcd(env, d, name)
  {
    if HasIcd(env, d, name) {
      assert (name, true) in Names(env, d) && EndsWith(name, ".icd");
    }
  }
}
