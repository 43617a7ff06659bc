/** bootc-finalize, its kernel hook and the bootupd postinst as they run: commands
    that change the machine's filesystem one after the other. */
module FinalizerScript {
  import opened Sorting
  import opened Image
  import opened Finalizer
  import opened FinalizerLaws

  /** What the glob over /usr/lib/modules expands to. */
  function ModuleNames(fs: FS): (r: set<string>)
    ensures forall k :: Visible(k) && HoldsTree(fs, k) ==> k in r
    ensures forall k :: k in r ==> Visible(k)
  {
    set p | p in fs.files.Keys + fs.dirs && p.Module? && Visible(p.kver) :: p.kver
  }

  /** The selection loop: the last name in version order that holds a module tree. */
  method ChooseKernel(le: (string, string) -> bool, fs: FS) returns (k: string)
    requires TotalOrder(le)
    ensures k != "" ==> IsNewest(le, fs, k)
    ensures k == "" ==> forall j :: Visible(j) ==> !HoldsTree(fs, j)
  {
    var names := SortSet(le, ModuleNames(fs));
    k := "";
    for i := 0 to |names|
      invariant k == "" ==> forall j :: 0 <= j < i ==> !HoldsTree(fs, names[j])
      invariant k != "" ==> k in names[..i] && HoldsTree(fs, k)
      invariant k != "" ==> forall j :: 0 <= j < i && HoldsTree(fs, names[j]) ==> le(names[j], k)
    {
      var d := names[i];
      assert d in ModuleNames(fs);
      if Module(d, KernelTree) in fs.dirs || Module(d, ModulesDep) in fs.files {
        k := d;
      }
    }
    assert forall j :: Visible(j) && HoldsTree(fs, j) ==> j in names;
  }

  lemma ChosenIsKernel(le: (string, string) -> bool, fs: FS, k: string)
    requires TotalOrder(le)
    requires if k != "" then IsNewest(le, fs, k) else forall j :: Visible(j) ==> !HoldsTree(fs, j)
    ensures Kernel(le, fs, "") == k
  {
  }

  /** Replacing the metadata area twice is replacing it once. */
  lemma PutTwice(fs: FS, m: map<string, Content>, n: map<string, Content>)
    ensures PutUpdates(PutUpdates(fs, m), n) == PutUpdates(fs, n)
  {
    var a, b := PutUpdates(PutUpdates(fs, m), n), PutUpdates(fs, n);
    forall p ensures AgreeAt(a, b, p) {
      UpdatesFrame(PutUpdates(fs, m), n, p);
      UpdatesFrame(fs, m, p);
      UpdatesFrame(fs, n, p);
      if p.Updates? {
        UpdatesHold(PutUpdates(fs, m), n, p.name);
        UpdatesHold(fs, n, p.name);
      }
    }
    Extensional(a, b);
  }

  class Machine {
    var fs: FS

    constructor (fs: FS)
      ensures this.fs == fs
    {
      this.fs := fs;
    }

    /** The cleanup loop over the directories of /usr/lib/modules. */
    method DropLeftovers(selected: string, dirs: seq<string>)
      requires forall j :: Module(j, Top) in fs.dirs && Visible(j) ==> j in dirs
      requires forall j :: j in dirs ==> Visible(j)
      modifies this
      ensures fs == DropStale(old(fs), selected)
    {
      ghost var before := fs;
      for i := 0 to |dirs|
        invariant forall p :: p in fs.files <==>
          p in before.files && !(Dropped(before, selected, p) && p.kver in dirs[..i])
        invariant forall p :: p in fs.files ==> fs.files[p] == before.files[p]
        invariant forall p :: p in fs.dirs <==>
          p in before.dirs && !(Dropped(before, selected, p) && p.kver in dirs[..i])
      {
        var d := dirs[i];
        assert forall j :: j in dirs[..i + 1] <==> j in dirs[..i] || j == d;
        ghost var now := fs;
        if d != selected {
          if Module(d, Top) in fs.dirs && Module(d, KernelTree) !in fs.dirs && Module(d, ModulesDep) !in fs.files {
            assert Stale(before, selected, d);
            fs := FS(map p | p in fs.files && !(p.Module? && p.kver == d) :: fs.files[p],
                     set p | p in fs.dirs && !(p.Module? && p.kver == d));
          } else {
            assert d in dirs[..i] || !Stale(before, selected, d);
          }
        }
      }
      assert fs.files == DropStale(before, selected).files;
      assert fs.dirs == DropStale(before, selected).dirs;
    }

    /** bootc-finalize with its optional argument; false when the script aborts. */
    method Finalize(env: Env, arg: string) returns (ok: bool)
      requires TotalOrder(env.le)
      modifies this
      ensures ok <==> Finalizer.Finalize(env, old(fs), arg).Done?
      ensures ok ==> Done(fs) == Finalizer.Finalize(env, old(fs), arg)
    {
      var kver := arg;
      if kver == "" {
        kver := ChooseKernel(env.le, fs);
        ChosenIsKernel(env.le, fs, kver);
      }
      if kver == "" { return true; }

      var unrelocated, vmlinuz := Boot(["vmlinuz-" + kver]), Module(kver, Vmlinuz);
      if unrelocated in fs.files {
        if Module(kver, Top) !in fs.dirs { return false; }
        fs := Move(fs, unrelocated, vmlinuz);
      } else if vmlinuz !in fs.files {
        return true;
      }
      ghost var relocated := fs;

      fs := PurgeBoot(fs);
      var img := env.dracut(kver, DracutView(fs, kver));
      if img.None? { return false; }
      fs := Put(fs, Module(kver, Initramfs), img.value);
      var listing := SortSet(env.le, set p | p in fs.dirs && p.Module? && p.entry.Top? && Visible(p.kver) :: p.kver);
      DropLeftovers(kver, listing);
      StageBinaries(env);
      assert fs == Rebuild(env, relocated, kver, img.value);
      ok := PublishAll(env);
    }

    /** The EFI section: each step is guarded on its source. */
    method StageBinaries(env: Env)
      modifies this
      ensures fs == Stage(env, old(fs))
    {
      if env.Shim() != "" && env.Grub() != "" {
        fs := Mkdir(fs, StageDirs(env));
        fs := Move(fs, Package(Binary.Grub), env.At(Binary.Grub));
        fs := Move(fs, Package(Binary.Shim), env.At(Binary.Shim));
        fs := Copy(fs, env.At(Binary.Shim), Efi(ShimDir, env.Shim(), VendorShim));
        fs := Move(fs, Package(Fallback), env.At(Fallback));
        fs := Move(fs, Package(MokManager), env.At(MokManager));
      }
    }

    /** bootupctl when it is installed, then the boot entry file. */
    method PublishAll(env: Env) returns (ok: bool)
      modifies this
      ensures ok <==> Publish(env, old(fs)).Done?
      ensures ok ==> Done(fs) == Publish(env, old(fs))
    {
      if env.bootupctl.Some? {
        var metadata := env.bootupctl.value(EfiTree(fs));
        if metadata.None? { return false; }
        fs := PutUpdates(fs, metadata.value);
      }
      if Brands(env, fs) {
        if env.csv.None? { return false; }
        fs := Put(fs, CsvPath(env), env.csv.value);
      }
      return true;
    }

    /** zz-bootc-finalize: nothing happens while a tool is missing. */
    method KernelHook(env: Env, tools: bool, arg: string) returns (ok: bool)
      requires TotalOrder(env.le)
      modifies this
      ensures ok <==> RunHooks(env, old(fs), [if tools then Executed(arg) else Deferred]).Done?
      ensures ok ==> Done(fs) == RunHooks(env, old(fs), [if tools then Executed(arg) else Deferred])
    {
      ghost var hook := if tools then Executed(arg) else Deferred;
      assert [hook][1..] == [];
      if !tools { return true; }
      ok := Finalize(env, arg);
    }

    /** `configure` of the bootupd package. */
    method ConfigureBootupd(env: Env) returns (ok: bool)
      modifies this
      ensures ok <==> Configure(env, old(fs)).Done?
      ensures ok ==> Done(fs) == Configure(env, old(fs))
    {
      var v := env.shim.GetOr("0");
      fs := Mkdir(fs, {Efi(ShimDir, v, BootDir), Efi(ShimDir, v, VendorDir), Updates("")});
      fs := Copy(fs, Package(Binary.Shim), Efi(ShimDir, v, Primary(Binary.Shim)));
      fs := Copy(fs, Package(Binary.Shim), Efi(ShimDir, v, VendorShim));
      fs := Copy(fs, Package(MokManager), Efi(ShimDir, v, Primary(MokManager)));
      fs := Copy(fs, Package(ShimArm), Efi(ShimDir, v, Primary(ShimArm)));
      fs := Copy(fs, Package(ShimArm), Efi(ShimDir, v, VendorShimArm));
      fs := Copy(fs, Package(MokArm), Efi(ShimDir, v, Primary(MokArm)));
      ghost var staged := fs;
      if env.bootupctl.None? { return false; }
      var metadata := env.bootupctl.value(EfiTree(fs));
      if metadata.None? { return false; }
      fs := PutUpdates(fs, metadata.value);
      var recorded := env.setDefault(metadata.value);
      if recorded.None? { return false; }
      fs := PutUpdates(fs, recorded.value);
      PutTwice(staged, metadata.value, recorded.value);
      fs := Copy(fs, PackageCsv, Efi(ShimDir, v, Csv));
      fs := Copy(fs, PackageCsvArm, Efi(ShimDir, v, CsvArm));
      return true;
    }
  }
}
