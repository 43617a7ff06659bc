/** dc-gpu as the shell runs it: loops over globs and files overwritten in place. */
module DcGpuScript {
  import opened Text
  import opened DcGpu
  import opened DcGpuLaws

  lemma {:induction false} JoinNonEmpty(xs: seq<string>, c: char)
    requires forall i :: 0 <= i < |xs| ==> xs[i] != ""
    ensures Join(xs, c) == "" <==> xs == []
  {
  }

  /** The vendors of the readable devices, sorted and without duplicates. */
  method DetectVendors(env: Env) returns (vs: seq<string>)
    ensures forall v :: v in vs <==> Detected(env, v)
    ensures forall i, j :: 0 <= i < j < |vs| ==> vs[i] != vs[j] && LexLeq(vs[i], vs[j])
  {
    var found: set<string> := {};
    for i := 0 to |env.cards|
      invariant forall v :: v in found <==>
        exists j :: 0 <= j < i && env.cards[j].Some? && VendorName(env.cards[j].value) == Some(v)
    {
      if env.cards[i].Some? {
        match VendorName(env.cards[i].value) {
          case Some(name) => found := found + {name};
          case None =>
        }
      }
    }
    vs := (if "amd" in found then ["amd"] else []) + (if "intel" in found then ["intel"] else [])
      + (if "nvidia" in found then ["nvidia"] else []);
    assert forall v :: v in found ==> v in {"amd", "intel", "nvidia"};
    assert LexLeq("amd", "intel") && LexLeq("intel", "nvidia") && LexLeq("amd", "nvidia");
  }

  /** The first connected output decides. */
  method ResolveProfile(env: Env, profile: string) returns (r: string)
    ensures r == Resolve(env, profile)
  {
    if profile != "auto" { return profile; }
    for i := 0 to |env.connectors|
      invariant forall j :: 0 <= j < i && env.connectors[j].Some? ==> Chomp(env.connectors[j].value) != "connected"
    {
      if env.connectors[i].Some? && Chomp(env.connectors[i].value) == "connected" {
        return "gaming";
      }
    }
    return "ia";
  }

  lemma {:induction false} MatchingAllNonEmpty(env: Env, suffix: string, ds: seq<string>)
    ensures "" !in MatchingAll(env, suffix, ds)
  {
    if ds == [] {
    } else {
      MatchingAllNonEmpty(env, suffix, ds[..|ds| - 1]);
      MatchingExact(ds[|ds| - 1], suffix, Names(env, ds[|ds| - 1]), "");
    }
  }

  /** `out=${out:+${out}:}item`: a colon only after a non-empty list. */
  function Added(out: string, item: string): string {
    if out != "" then out + ":" + item else item
  }

  lemma AddedJoins(xs: seq<string>, item: string)
    requires "" !in xs
    ensures Added(Join(xs, ':'), item) == Join(xs + [item], ':')
  {
    JoinNonEmpty(xs, ':');
    JoinAppend(xs, item, ':');
  }

  method JoinFiles(env: Env, suffix: string, ds: seq<string>) returns (out: string)
    ensures out == Join(MatchingAll(env, suffix, ds), ':')
  {
    out := "";
    ghost var list: seq<string> := [];
    for i := 0 to |ds|
      invariant list == MatchingAll(env, suffix, ds[..i]) && out == Join(list, ':')
    {
      var names := Names(env, ds[i]);
      ghost var before := list;
      MatchingAllNonEmpty(env, suffix, ds[..i]);
      for j := 0 to |names|
        invariant list == before + Matching(ds[i], suffix, names[..j]) && out == Join(list, ':') && "" !in list
      {
        assert names[..j + 1][..j] == names[..j];
        var (name, exist) := names[j];
        if exist && EndsWith(name, suffix) {
          AddedJoins(list, ds[i] + "/" + name);
          out := Added(out, ds[i] + "/" + name);
          list := list + [ds[i] + "/" + name];
        }
      }
      assert names[..|names|] == names && ds[..i + 1][..i] == ds[..i];
    }
    assert ds[..|ds|] == ds;
  }

  lemma {:induction false} ExistingNonEmpty(env: Env, ds: seq<string>)
    requires "" !in ds
    ensures "" !in Existing(env, ds)
  {
    if ds == [] {
    } else {
      ExistingNonEmpty(env, ds[..|ds| - 1]);
    }
  }

  method JoinDirs(env: Env, ds: seq<string>) returns (out: string)
    requires "" !in ds
    ensures out == Join(Existing(env, ds), ':')
  {
    out := "";
    for i := 0 to |ds|
      invariant out == Join(Existing(env, ds[..i]), ':')
    {
      assert ds[..i + 1][..i] == ds[..i];
      if ds[i] in env.dirs {
        ExistingNonEmpty(env, ds[..i]);
        AddedJoins(Existing(env, ds[..i]), ds[i]);
        out := Added(out, ds[i]);
      } else {
        assert Existing(env, ds[..i + 1]) == Existing(env, ds[..i]);
      }
    }
    assert ds[..|ds|] == ds;
  }

  /** The VA-API list starts with the build's own drivers. */
  method JoinVa(env: Env, own: string) returns (va: string)
    ensures va == Join([own] + Existing(env, env.driDirs + ["/usr/lib/dri"]), ':')
  {
    va := own;
    var ds := env.driDirs + ["/usr/lib/dri"];
    for i := 0 to |ds|
      invariant va == Join([own] + Existing(env, ds[..i]), ':')
    {
      assert ds[..i + 1][..i] == ds[..i];
      if ds[i] in env.dirs {
        JoinAppend([own] + Existing(env, ds[..i]), ds[i], ':');
        assert [own] + Existing(env, ds[..i + 1]) == [own] + Existing(env, ds[..i]) + [ds[i]];
        va := va + ":" + ds[i];
      } else {
        assert Existing(env, ds[..i + 1]) == Existing(env, ds[..i]);
      }
    }
    assert ds[..|ds|] == ds;
  }

  predicate IsIcd(e: (string, bool)) {
    e.1 && EndsWith(e.0, ".icd")
  }

  lemma LinksGrow(d: string, names: seq<(string, bool)>, e: (string, bool))
    ensures Links(d, names + [e]) == if IsIcd(e) then Links(d, names)[e.0 := d + "/" + e.0] else Links(d, names)
  {
    var more, before := Links(d, names + [e]), Links(d, names);
    forall n ensures n in more <==> n in before || (IsIcd(e) && n == e.0) {
      if n in before {
        var x :| x in names && x.1 && EndsWith(x.0, ".icd") && x.0 == n;
        assert x in names + [e];
      }
      if IsIcd(e) && n == e.0 {
        assert e in names + [e];
      }
    }
  }

  lemma UpdateLast(m: map<string, string>, l: map<string, string>, k: string, v: string)
    ensures (m + l)[k := v] == m + l[k := v]
  {
  }

  /** One directory's `ln -sf` loop into the merged directory. */
  method LinkIcds(d: string, names: seq<(string, bool)>, before: map<string, string>) returns (links: map<string, string>)
    ensures links == before + Links(d, names)
  {
    links := before;
    ghost var own := Links(d, []);
    assert own == map[];
    for i := 0 to |names|
      invariant own == Links(d, names[..i]) && links == before + own
    {
      var (name, exist) := names[i];
      LinksGrow(d, names[..i], names[i]);
      assert names[..i + 1] == names[..i] + [names[i]];
      if exist && EndsWith(name, ".icd") {
        UpdateLast(before, own, name, d + "/" + name);
        links := links[name := d + "/" + name];
        own := own[name := d + "/" + name];
      }
    }
    assert names[..|names|] == names;
  }

  method MergeIcds(env: Env, share: string) returns (links: map<string, string>)
    ensures links == Links(share + "/etc/OpenCL/vendors", Names(env, share + "/etc/OpenCL/vendors"))
                     + Links("/etc/OpenCL/vendors", Names(env, "/etc/OpenCL/vendors"))
  {
    var build, host := share + "/etc/OpenCL/vendors", "/etc/OpenCL/vendors";
    ghost var none: map<string, string> := map[];
    links := LinkIcds(build, Names(env, build), map[]);
    assert none + Links(build, Names(env, build)) == Links(build, Names(env, build));
    links := LinkIcds(host, Names(env, host), links);
  }

  /** The search lists of the environment file. */
  method SearchLines(env: Env, prof: string, prefix: string, share: string) returns (out: seq<string>)
    requires prefix == Prefix(prof) && share == Share(prof)
    ensures out == VulkanLines(env, prof) + EglLines(env, prof) + DriLines(env, prof)
  {
    out := [];
    var vk := JoinFiles(env, ".json", [share + "/vulkan/icd.d", "/etc/vulkan/icd.d", "/usr/share/vulkan/icd.d"]);
    if vk != "" { out := out + ["VK_DRIVER_FILES=" + vk, "VK_ICD_FILENAMES=" + vk]; }
    assert out == VulkanLines(env, prof);
    var egl := JoinDirs(env, [share + "/glvnd/egl_vendor.d", "/etc/glvnd/egl_vendor.d", "/usr/share/glvnd/egl_vendor.d"]);
    if egl != "" { out := out + ["__EGL_VENDOR_LIBRARY_DIRS=" + egl]; }
    assert out == VulkanLines(env, prof) + EglLines(env, prof);
    if prefix + "/lib/dri" in env.dirs {
      var va := JoinVa(env, prefix + "/lib/dri");
      out := out + ["LIBGL_DRIVERS_PATH=" + prefix + "/lib/dri", "LIBVA_DRIVERS_PATH=" + va];
    }
  }

  lemma Prepend<T>(h: T, xs: seq<T>, ys: seq<T>, zs: seq<T>)
    ensures [h] + (xs + ys + zs) == [h] + xs + ys + zs
  {
  }

  /** The lines naming one directory of the profile. */
  method FixedPaths(env: Env, prof: string, prefix: string) returns (out: seq<string>)
    requires prefix == Prefix(prof)
    ensures out == PathLines(env, prof)
  {
    out := [];
    if prefix + "/lib/gbm" in env.dirs { out := out + ["GBM_BACKENDS_PATH=" + prefix + "/lib/gbm"]; }
    if prefix + "/lib/vdpau" in env.dirs { out := out + ["VDPAU_DRIVER_PATH=" + prefix + "/lib/vdpau"]; }
  }

  /** The header and every line but the OpenCL one. */
  method LoaderLines(env: Env, prof: string, prefix: string, share: string) returns (out: seq<string>)
    requires prefix == Prefix(prof) && share == Share(prof)
    ensures out == [Header(prof)] + VulkanLines(env, prof) + EglLines(env, prof) + DriLines(env, prof) + PathLines(env, prof)
  {
    out := SearchLines(env, prof, prefix, share);
    Prepend(Header(prof), VulkanLines(env, prof), EglLines(env, prof), DriLines(env, prof));
    out := ["# Written by dc-gpu for userspace profile " + prof] + out;
    var paths := FixedPaths(env, prof, prefix);
    out := out + paths;
  }

  class Files {
    var usage: Option<string>
    var modload: Option<seq<string>>
    var ldconf: Option<string>
    var envfile: Option<seq<string>>
    var ocl: Option<map<string, string>>

    ghost function Contents(): State
      reads this
    {
      State(usage, modload, ldconf, envfile, ocl)
    }

    method UserspaceOf(env: Env, prof: string)
      modifies this
      ensures Contents() == Userspace(env, old(Contents()), prof)
    {
      var prefix, share := LIBDIR + "/" + prof, SHAREDIR + "/" + prof;
      if prefix + "/lib" !in env.dirs {
        ldconf, envfile := None, None;
        return;
      }
      ldconf := Some(prefix + "/lib");
      var out := LoaderLines(env, prof, prefix, share);
      if share + "/etc/OpenCL/vendors" in env.dirs {
        var links := MergeIcds(env, share);
        ocl := Some(links);
        out := out + [OCL_LINE];
      }
      assert out == EnvLines(env, prof);
      envfile := Some(out);
    }

    method ApplyProfile(env: Env, profile: string)
      modifies this
      ensures Contents() == Apply(env, old(Contents()), profile)
    {
      var vs := DetectVendors(env);
      var lines := ["# Written by dc-gpu for profile " + profile];
      for i := 0 to |vs|
        invariant lines == ["# Written by dc-gpu for profile " + profile]
          + (if "nvidia" in vs[..i] && profile != "gaming" && env.consent then ["nvidia", "nvidia_uvm", "nvidia_drm"] else [])
      {
        if vs[i] == "nvidia" {
          assert "nvidia" !in vs[..i];
          if profile != "gaming" && env.consent {
            lines := lines + ["nvidia", "nvidia_uvm", "nvidia_drm"];
          }
        }
      }
      assert vs[..|vs|] == vs;
      modload := Some(lines);
      var prof := ResolveProfile(env, profile);
      UserspaceOf(env, prof);
    }

    /** The command line of one invocation; the exit status. */
    method Invoke(env: Env, argv: seq<string>) returns (status: nat)
      modifies this
      ensures (Contents(), status) == Command(env, old(Contents()), argv)
    {
      if |argv| < 1 { return 2; }
      if argv[0] == "set" {
        if |argv| != 2 || argv[1] !in {"gaming", "ia", "auto"} { return 2; }
        usage := Some(argv[1] + "\n");
        ApplyProfile(env, argv[1]);
        return 0;
      } else if argv[0] == "apply" {
        if |argv| != 1 { return 2; }
        var profile := if usage.Some? then Chomp(usage.value) else "auto";
        ApplyProfile(env, profile);
        return 0;
      } else if argv[0] == "status" {
        return 0;
      }
      return 2;
    }
  }
}
