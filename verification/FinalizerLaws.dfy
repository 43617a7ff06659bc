/** Idempotence, re-entry and conservation of bootc-finalize. */
module FinalizerLaws {
  import opened Text
  import opened Sorting
  import opened Image
  import opened Finalizer

  predicate SameFile(a: FS, b: FS, p: Path) {
    && (p in a.files <==> p in b.files)
    && (p in a.files && p in b.files ==> a.files[p] == b.files[p])
  }

  predicate AgreeAt(a: FS, b: FS, p: Path) {
    SameFile(a, b, p) && (p in a.dirs <==> p in b.dirs)
  }

  lemma Extensional(a: FS, b: FS)
    requires forall p :: AgreeAt(a, b, p)
    ensures a == b
  {
    forall p ensures p in a.files <==> p in b.files {
      assert AgreeAt(a, b, p);
    }
    forall p ensures p in a.dirs <==> p in b.dirs {
      assert AgreeAt(a, b, p);
    }
    forall p | p in a.files ensures a.files[p] == b.files[p] {
      assert AgreeAt(a, b, p);
    }
    assert a.files == b.files && a.dirs == b.dirs;
  }

  // ---------- a finished rebuild is a fixed point ----------

  /** The layout a run leaves: nothing visible in /boot, kernel and initramfs in
      place, no stale directory, EFI sources consumed and the shim in both places. */
  ghost predicate Settled(env: Env, fs: FS, k: string, img: Content) {
    && (forall p :: p in fs.files || p in fs.dirs ==> !Purged(p))
    && Module(k, Vmlinuz) in fs.files
    && Module(k, Initramfs) in fs.files && fs.files[Module(k, Initramfs)] == img
    && (forall j :: !Stale(fs, k, j))
    && (env.Signed() ==>
          && (forall b | b in {Binary.Grub, Binary.Shim, Fallback, MokManager} :: Package(b) !in fs.files)
          && StageDirs(env) <= fs.dirs
          && (env.At(Binary.Shim) in fs.files ==>
                && Efi(ShimDir, env.Shim(), VendorShim) in fs.files
                && fs.files[Efi(ShimDir, env.Shim(), VendorShim)] == fs.files[env.At(Binary.Shim)]))
  }

  lemma MoveFrame(fs: FS, src: Path, dst: Path, p: Path)
    requires p != src && p != dst
    ensures AgreeAt(Move(fs, src, dst), fs, p)
  {
  }

  lemma ShimFrame(env: Env, fs: FS, p: Path)
    requires p != Package(Binary.Shim) && p != env.At(Binary.Shim) && p != Efi(ShimDir, env.Shim(), VendorShim)
    ensures AgreeAt(StageShim(env, fs), fs, p)
  {
  }

  /** Paths that staging neither moves nor copies. */
  predicate Unstaged(p: Path) {
    !p.Package? && (p.Efi? ==> !p.slot.Primary? && p.slot != VendorShim)
  }

  /** Past the new directories, staging touches only what it moves and copies. */
  lemma StageFiles(env: Env, fs: FS, p: Path)
    requires env.Signed() && Unstaged(p)
    ensures AgreeAt(Stage(env, fs), Mkdir(fs, StageDirs(env)), p)
  {
    var m := Mkdir(fs, StageDirs(env));
    var a := Move(m, Package(Grub), env.At(Grub));
    MoveFrame(m, Package(Grub), env.At(Grub), p);
    var b := StageShim(env, a);
    ShimFrame(env, a, p);
    var c := Move(b, Package(Fallback), env.At(Fallback));
    MoveFrame(b, Package(Fallback), env.At(Fallback), p);
    MoveFrame(c, Package(MokManager), env.At(MokManager), p);
  }

  /** Staging touches nothing outside the EFI tree and the packaged binaries. */
  lemma StageFrame(env: Env, fs: FS, p: Path)
    requires !p.Efi? && !p.Package?
    ensures AgreeAt(Stage(env, fs), fs, p)
  {
    if env.Signed() {
      StageFiles(env, fs, p);
      assert p !in StageDirs(env);
    }
  }

  /** Staging consumes the packaged binaries and leaves the shim in both places. */
  lemma StageConsumes(env: Env, b: FS)
    requires env.Signed()
    ensures forall x | x in {Binary.Grub, Binary.Shim, Fallback, MokManager} :: Package(x) !in Stage(env, b).files
    ensures StageDirs(env) <= Stage(env, b).dirs
    ensures env.At(Binary.Shim) in Stage(env, b).files ==>
              && Efi(ShimDir, env.Shim(), VendorShim) in Stage(env, b).files
              && Stage(env, b).files[Efi(ShimDir, env.Shim(), VendorShim)] == Stage(env, b).files[env.At(Binary.Shim)]
  {
  }

  lemma RebuildSettles(env: Env, moved: FS, k: string, img: Content)
    requires Module(k, Vmlinuz) in moved.files
    ensures Settled(env, Rebuild(env, moved, k, img), k, img)
  {
    var a := Put(PurgeBoot(moved), Module(k, Initramfs), img);
    var b := DropStale(a, k);
    var r := Stage(env, b);
    forall p: Path | !p.Efi? && !p.Package? ensures AgreeAt(r, b, p) {
      StageFrame(env, b, p);
    }
    forall j ensures !Stale(r, k, j) {
      assert AgreeAt(r, b, Module(j, Top)) && AgreeAt(r, b, Module(j, KernelTree)) && AgreeAt(r, b, Module(j, ModulesDep));
    }
    forall p: Path | p in r.files || p in r.dirs ensures !Purged(p) {
      if p.Boot? {
        assert AgreeAt(r, b, p);
      }
    }
    assert AgreeAt(r, b, Module(k, Vmlinuz)) && AgreeAt(r, b, Module(k, Initramfs));
    if env.Signed() { StageConsumes(env, b); }
  }

  lemma SettledIsFixed(env: Env, fs: FS, k: string, img: Content)
    requires Settled(env, fs, k, img)
    ensures Rebuild(env, fs, k, img) == fs
  {
    var a := Put(PurgeBoot(fs), Module(k, Initramfs), img);
    assert a == fs by {
      assert a.files == fs.files && a.dirs == fs.dirs;
    }
    var b := DropStale(a, k);
    assert b == fs by {
      assert b.files == fs.files && b.dirs == fs.dirs;
    }
    StageFixed(env, fs, k, img);
  }

  lemma StageFixed(env: Env, fs: FS, k: string, img: Content)
    requires Settled(env, fs, k, img)
    ensures Stage(env, fs) == fs
  {
    if env.Signed() {
      assert Mkdir(fs, StageDirs(env)) == fs by {
        assert fs.dirs + StageDirs(env) == fs.dirs;
      }
      assert StageShim(env, fs).files == fs.files;
    }
  }

  // ---------- the second run ----------

  function CsvPath(env: Env): Path {
    Efi(ShimDir, env.Shim(), Csv)
  }

  /** The boot entry file is settled before the run: no vendor directory will receive
      one, or it is already there with the product's text. */
  predicate Branded(env: Env, fs: FS) {
    || env.Shim() == ""
    || (!env.Signed() && Efi(ShimDir, env.Shim(), VendorDir) !in fs.dirs)
    || (CsvPath(env) in fs.files && Some(fs.files[CsvPath(env)]) == env.csv)
  }

  /** A metadata generator whose output tells which boot entry file was staged. */
  ghost predicate Reflects(env: Env, tool: FS -> Option<map<string, Content>>) {
    forall a, b :: tool(a).Some? && tool(a) == tool(b) ==> SameFile(a, b, CsvPath(env))
  }

  lemma PublishFrame(env: Env, fs: FS, r: FS)
    requires Publish(env, fs) == Done(r)
    ensures forall p: Path :: !p.Updates? && p != CsvPath(env) ==> AgreeAt(r, fs, p)
    ensures if Brands(env, fs)
            then env.csv.Some? && CsvPath(env) in r.files && r.files[CsvPath(env)] == env.csv.value
            else AgreeAt(r, fs, CsvPath(env))
  {
  }

  lemma UpdatesFrame(fs: FS, m: map<string, Content>, p: Path)
    ensures !p.Updates? ==> SameFile(PutUpdates(fs, m), fs, p)
    ensures p in PutUpdates(fs, m).dirs <==> p in fs.dirs
  {
  }

  /** What publishing leaves alone, path by path. */
  lemma PublishedAt(env: Env, fs: FS, r: FS, p: Path)
    requires Publish(env, fs) == Done(r) && !p.Updates? && p != CsvPath(env)
    ensures AgreeAt(r, fs, p)
  {
    PublishFrame(env, fs, r);
  }

  lemma UpdatesHold(fs: FS, m: map<string, Content>, n: string)
    ensures Updates(n) in PutUpdates(fs, m).files <==> n in m
    ensures n in m ==> PutUpdates(fs, m).files[Updates(n)] == m[n]
  {
  }

  /** The metadata area determines what the tool produced. */
  lemma UpdatesInjective(a: FS, m: map<string, Content>, b: FS, n: map<string, Content>)
    requires forall u :: AgreeAt(PutUpdates(a, m), PutUpdates(b, n), Updates(u))
    ensures m == n
  {
    forall u ensures (u in m <==> u in n) && (u in m && u in n ==> m[u] == n[u]) {
      UpdatesHold(a, m, u);
      UpdatesHold(b, n, u);
      assert AgreeAt(PutUpdates(a, m), PutUpdates(b, n), Updates(u));
    }
  }

  /** A rebuild keeps what dracut reads, so running again yields the same initramfs. */
  lemma ViewKept(env: Env, moved: FS, k: string, img: Content, r: FS)
    requires Publish(env, Rebuild(env, moved, k, img)) == Done(r)
    ensures DracutView(PurgeBoot(r), k) == DracutView(PurgeBoot(moved), k)
  {
    var a := Put(PurgeBoot(moved), Module(k, Initramfs), img);
    var b := DropStale(a, k);
    var c := Stage(env, b);
    PublishFrame(env, c, r);
    forall p: Path | DracutReads(k, p) ensures AgreeAt(PurgeBoot(r), PurgeBoot(moved), p) {
      StageFrame(env, b, p);
      assert AgreeAt(r, c, p);
    }
    forall p ensures AgreeAt(DracutView(PurgeBoot(r), k), DracutView(PurgeBoot(moved), k), p) {
      if DracutReads(k, p) {
        assert AgreeAt(PurgeBoot(r), PurgeBoot(moved), p);
      }
    }
    Extensional(DracutView(PurgeBoot(r), k), DracutView(PurgeBoot(moved), k));
  }

  lemma PublishKeepsSettled(env: Env, c: FS, k: string, img: Content, r: FS)
    requires Settled(env, c, k, img) && Publish(env, c) == Done(r)
    ensures Settled(env, r, k, img)
  {
    PublishFrame(env, c, r);
    forall j ensures !Stale(r, k, j) {
      assert AgreeAt(r, c, Module(j, Top)) && AgreeAt(r, c, Module(j, KernelTree)) && AgreeAt(r, c, Module(j, ModulesDep));
      assert !Stale(c, k, j);
    }
    forall p: Path | p in r.files || p in r.dirs ensures !Purged(p) {
      if p.Boot? {
        assert AgreeAt(r, c, p);
      }
    }
    assert AgreeAt(r, c, Module(k, Vmlinuz)) && AgreeAt(r, c, Module(k, Initramfs));
    forall b: Binary ensures AgreeAt(r, c, Package(b)) {
    }
    assert AgreeAt(r, c, env.At(Binary.Shim)) && AgreeAt(r, c, Efi(ShimDir, env.Shim(), VendorShim));
    forall d | d in StageDirs(env) ensures AgreeAt(r, c, d) {
    }
  }

  /** After a completed run, another one only publishes again. */
  lemma SecondRunPublishes(env: Env, fs: FS, k: string, r: FS)
    requires Relocate(fs, k).Moved? && FinalizeKernel(env, fs, k) == Done(r)
    ensures FinalizeKernel(env, r, k) == Publish(env, r)
  {
    var g := Relocate(fs, k).fs;
    var img := env.dracut(k, DracutView(PurgeBoot(g), k)).value;
    var c := Rebuild(env, g, k, img);
    RebuildSettles(env, g, k, img);
    PublishKeepsSettled(env, c, k, img, r);
    ViewKept(env, g, k, img, r);
    SettledIsFixed(env, r, k, img);
    assert Purged(Boot(["vmlinuz-" + k]));
    assert Relocate(r, k) == Moved(r);
  }

  /** Publishing will not change the boot entry file of `c`. */
  predicate CsvSettled(env: Env, c: FS) {
    Brands(env, c) ==> CsvPath(env) in c.files && Some(c.files[CsvPath(env)]) == env.csv
  }

  lemma EfiTreeKept(env: Env, c: FS, r: FS)
    requires Publish(env, c) == Done(r)
    ensures CsvSettled(env, c) <==> EfiTree(r) == EfiTree(c)
  {
    PublishFrame(env, c, r);
    if CsvSettled(env, c) {
      forall p ensures AgreeAt(EfiTree(r), EfiTree(c), p) {
        if p.Efi? {
          assert AgreeAt(r, c, p);
        }
      }
      Extensional(EfiTree(r), EfiTree(c));
    } else {
      var p := CsvPath(env);
      assert p in EfiTree(r).files;
      assert !(p in EfiTree(c).files && EfiTree(c).files[p] == EfiTree(r).files[p]);
    }
  }

  lemma SameUpdates(env: Env, c: FS, r: FS, m: map<string, Content>)
    requires r == PutUpdates(c, m) || exists t :: r == Put(PutUpdates(c, m), CsvPath(env), t)
    ensures PutUpdates(r, m) == r
  {
    forall p ensures AgreeAt(PutUpdates(r, m), r, p) {
      if p.Updates? {
        UpdatesHold(c, m, p.name);
        UpdatesHold(r, m, p.name);
        assert AgreeAt(r, PutUpdates(c, m), p);
      }
    }
    Extensional(PutUpdates(r, m), r);
  }

  lemma PublishAgain(env: Env, c: FS, r: FS)
    requires Publish(env, c) == Done(r)
    ensures env.bootupctl.None? || CsvSettled(env, c) ==> Publish(env, r) == Done(r)
    ensures CsvSettled(env, r)
  {
    PublishFrame(env, c, r);
    EfiTreeKept(env, c, r);
    assert AgreeAt(r, c, Efi(ShimDir, env.Shim(), VendorDir));
    if env.bootupctl.Some? && CsvSettled(env, c) {
      var m := env.bootupctl.value(EfiTree(c)).value;
      SameUpdates(env, c, r, m);
    }
    if Brands(env, r) {
      assert Put(r, CsvPath(env), env.csv.value) == r;
    }
  }

  /** With a generator that reflects the boot entry file, publishing twice is publishing once only when the
      boot entry file was settled. */
  lemma PublishUnsettled(env: Env, c: FS, r: FS)
    requires env.bootupctl.Some? && Reflects(env, env.bootupctl.value)
    requires Publish(env, c) == Done(r) && Publish(env, r) == Done(r)
    ensures CsvSettled(env, c)
  {
    var tool := env.bootupctl.value;
    var m, n := tool(EfiTree(c)).value, tool(EfiTree(r)).value;
    forall u ensures AgreeAt(PutUpdates(c, m), PutUpdates(r, n), Updates(u)) {
      assert AgreeAt(r, PutUpdates(c, m), Updates(u));
      assert AgreeAt(r, PutUpdates(r, n), Updates(u));
    }
    UpdatesInjective(c, m, r, n);
    PublishFrame(env, c, r);
    assert SameFile(EfiTree(c), EfiTree(r), CsvPath(env));
  }

  lemma StageBrand(env: Env, b: FS)
    ensures AgreeAt(Stage(env, b), b, CsvPath(env))
    ensures Efi(ShimDir, env.Shim(), VendorDir) in Stage(env, b).dirs <==>
            env.Signed() || Efi(ShimDir, env.Shim(), VendorDir) in b.dirs
  {
    if env.Signed() {
      StageFiles(env, b, CsvPath(env));
      StageFiles(env, b, Efi(ShimDir, env.Shim(), VendorDir));
      assert CsvPath(env) !in StageDirs(env);
    }
  }

  /** Relocating, purging and cleaning up leave the staged EFI tree alone. */
  lemma RebuildFrame(moved: FS, k: string, img: Content, p: Path)
    requires !p.Boot? && !p.Module?
    ensures AgreeAt(DropStale(Put(PurgeBoot(moved), Module(k, Initramfs), img), k), moved, p)
  {
  }

  /** A completed run stages and publishes from a state that differs from the initial
      one only in /boot and /usr/lib/modules. */
  lemma RunShape(env: Env, fs: FS, k: string, r: FS) returns (d: FS)
    requires Relocate(fs, k).Moved? && FinalizeKernel(env, fs, k) == Done(r)
    ensures Publish(env, Stage(env, d)) == Done(r)
    ensures forall p: Path :: !p.Boot? && !p.Module? ==> AgreeAt(d, fs, p)
  {
    var g := Relocate(fs, k).fs;
    var img := env.dracut(k, DracutView(PurgeBoot(g), k)).value;
    d := DropStale(Put(PurgeBoot(g), Module(k, Initramfs), img), k);
    forall p: Path | !p.Boot? && !p.Module? ensures AgreeAt(d, fs, p) {
      RebuildFrame(g, k, img, p);
    }
  }

  /** A rebuild decides the boot entry file's fate as the initial state does. */
  lemma BrandedAtStart(env: Env, fs: FS, k: string, g: FS, img: Content)
    requires Relocate(fs, k) == Moved(g) && Publish(env, Rebuild(env, g, k, img)) != Aborted
    ensures CsvSettled(env, Rebuild(env, g, k, img)) <==> Branded(env, fs)
  {
    var c := Rebuild(env, g, k, img);
    PublishFrame(env, c, Publish(env, c).fs);
    var b := DropStale(Put(PurgeBoot(g), Module(k, Initramfs), img), k);
    StageBrand(env, b);
    RebuildFrame(g, k, img, CsvPath(env));
    RebuildFrame(g, k, img, Efi(ShimDir, env.Shim(), VendorDir));
    assert AgreeAt(g, fs, CsvPath(env)) && AgreeAt(g, fs, Efi(ShimDir, env.Shim(), VendorDir));
  }

  // ---------- main results on single runs ----------

  lemma KernelUnique(le: (string, string) -> bool, a: FS, b: FS, arg: string)
    requires TotalOrder(le)
    requires forall j :: HoldsTree(a, j) <==> HoldsTree(b, j)
    ensures Kernel(le, a, arg) == Kernel(le, b, arg)
  {
    forall k ensures IsNewest(le, a, k) <==> IsNewest(le, b, k) {
    }
  }

  lemma RelocateKeeps(fs: FS, k: string, j: string, e: Entry)
    requires Relocate(fs, k).Moved? && (j != k || e != Vmlinuz)
    ensures AgreeAt(Relocate(fs, k).fs, fs, Module(j, e))
  {
  }

  lemma CleanupKeeps(g: FS, k: string, img: Content, j: string, e: Entry)
    requires j == k || HoldsTree(g, j)
    requires j != k || e != Initramfs
    ensures AgreeAt(DropStale(Put(PurgeBoot(g), Module(k, Initramfs), img), k), g, Module(j, e))
  {
    var a := Put(PurgeBoot(g), Module(k, Initramfs), img);
    assert AgreeAt(a, g, Module(j, KernelTree)) && AgreeAt(a, g, Module(j, ModulesDep)) && AgreeAt(a, g, Module(j, e));
    assert !Stale(a, k, j);
  }

  lemma CleanupAddsNone(g: FS, k: string, img: Content, j: string)
    requires HoldsTree(DropStale(Put(PurgeBoot(g), Module(k, Initramfs), img), k), j)
    ensures HoldsTree(g, j)
  {
  }

  lemma PublishedModules(env: Env, b: FS, r: FS, j: string, e: Entry)
    requires Publish(env, Stage(env, b)) == Done(r)
    ensures AgreeAt(r, b, Module(j, e))
  {
    PublishFrame(env, Stage(env, b), r);
    StageFrame(env, b, Module(j, e));
    assert AgreeAt(r, Stage(env, b), Module(j, e));
  }

  lemma TreeKept(env: Env, fs: FS, k: string, r: FS, j: string)
    requires FinalizeKernel(env, fs, k) == Done(r)
    ensures HoldsTree(r, j) <==> HoldsTree(fs, j)
    ensures j != k && HoldsTree(fs, j) ==> forall e :: AgreeAt(r, fs, Module(j, e))
  {
    if Relocate(fs, k).Moved? {
      var g := Relocate(fs, k).fs;
      var img := env.dracut(k, DracutView(PurgeBoot(g), k)).value;
      var b := DropStale(Put(PurgeBoot(g), Module(k, Initramfs), img), k);
      forall e ensures AgreeAt(r, b, Module(j, e)) {
        PublishedModules(env, b, r, j, e);
      }
      forall e | j != k || e != Vmlinuz ensures AgreeAt(g, fs, Module(j, e)) {
        RelocateKeeps(fs, k, j, e);
      }
      assert AgreeAt(g, fs, Module(j, KernelTree)) && AgreeAt(g, fs, Module(j, ModulesDep));
      assert AgreeAt(r, b, Module(j, KernelTree)) && AgreeAt(r, b, Module(j, ModulesDep));
      if HoldsTree(fs, j) {
        forall e | j != k || e != Initramfs ensures AgreeAt(b, g, Module(j, e)) {
          CleanupKeeps(g, k, img, j, e);
        }
        assert AgreeAt(b, g, Module(j, KernelTree)) && AgreeAt(b, g, Module(j, ModulesDep));
      } else if HoldsTree(b, j) {
        CleanupAddsNone(g, k, img, j);
      }
    }
  }

  /** Every run keeps the set of directories holding a module tree, and every entry of
      the unselected ones. */
  lemma TreesKept(env: Env, fs: FS, k: string, r: FS)
    requires FinalizeKernel(env, fs, k) == Done(r)
    ensures forall j :: HoldsTree(r, j) <==> HoldsTree(fs, j)
    ensures forall j, e :: j != k && HoldsTree(fs, j) ==> AgreeAt(r, fs, Module(j, e))
  {
    forall j ensures HoldsTree(r, j) <==> HoldsTree(fs, j) {
      TreeKept(env, fs, k, r, j);
    }
    forall j, e | j != k && HoldsTree(fs, j) ensures AgreeAt(r, fs, Module(j, e)) {
      TreeKept(env, fs, k, r, j);
    }
  }

  /** The run does not take one of its two early exits. */
  ghost predicate Completes(env: Env, fs: FS, arg: string) {
    var k := Kernel(env.le, fs, arg);
    k != "" && Relocate(fs, k).Moved?
  }

  lemma IdempotentKernel(env: Env, fs: FS, k: string, r: FS)
    requires Relocate(fs, k).Moved? && FinalizeKernel(env, fs, k) == Done(r)
    ensures env.bootupctl.None? || Branded(env, fs) ==> FinalizeKernel(env, r, k) == Done(r)
    ensures env.bootupctl.Some? && Reflects(env, env.bootupctl.value) && FinalizeKernel(env, r, k) == Done(r) ==>
              Branded(env, fs)
  {
    var g := Relocate(fs, k).fs;
    var img := env.dracut(k, DracutView(PurgeBoot(g), k)).value;
    var c := Rebuild(env, g, k, img);
    SecondRunPublishes(env, fs, k, r);
    PublishAgain(env, c, r);
    BrandedAtStart(env, fs, k, g, img);
    if env.bootupctl.Some? && Reflects(env, env.bootupctl.value) && FinalizeKernel(env, r, k) == Done(r) {
      PublishUnsettled(env, c, r);
    }
  }

  /** A finished run selects the same kernel again. */
  lemma SameKernel(env: Env, fs: FS, arg: string, r: FS)
    requires TotalOrder(env.le) && Finalize(env, fs, arg) == Done(r)
    ensures Kernel(env.le, r, arg) == Kernel(env.le, fs, arg)
  {
    var k := Kernel(env.le, fs, arg);
    if k != "" {
      TreesKept(env, fs, k, r);
    }
    KernelUnique(env.le, fs, r, arg);
  }

  lemma EarlyExit(env: Env, fs: FS, arg: string, r: FS)
    requires Finalize(env, fs, arg) == Done(r) && !Completes(env, fs, arg)
    ensures r == fs
  {
  }

  /** Finalizing is idempotent whenever it takes an early exit, the boot entry file is
      settled or bootupctl is absent; a run that completes with a generator that reflects
      that file is idempotent exactly when the file was settled. */
  lemma Idempotent(env: Env, fs: FS, arg: string, r: FS)
    requires TotalOrder(env.le) && Finalize(env, fs, arg) == Done(r)
    ensures !Completes(env, fs, arg) || env.bootupctl.None? || Branded(env, fs) ==> Finalize(env, r, arg) == Done(r)
    ensures Completes(env, fs, arg) && env.bootupctl.Some? && Reflects(env, env.bootupctl.value) ==>
              (Finalize(env, r, arg) == Done(r) <==> Branded(env, fs))
  {
    var k := Kernel(env.le, fs, arg);
    SameKernel(env, fs, arg, r);
    if k != "" && Relocate(fs, k).Moved? {
      IdempotentKernel(env, fs, k, r);
    } else {
      EarlyExit(env, fs, arg, r);
    }
  }

  lemma RepublishFrame(env: Env, r: FS, r2: FS)
    requires CsvSettled(env, r) && Publish(env, r) == Done(r2)
    ensures WithoutUpdates(r2) == WithoutUpdates(r)
  {
    PublishFrame(env, r, r2);
    forall p ensures AgreeAt(WithoutUpdates(r2), WithoutUpdates(r), p) {
      if !p.Updates? && p != CsvPath(env) {
        assert AgreeAt(r2, r, p);
      }
    }
    Extensional(WithoutUpdates(r2), WithoutUpdates(r));
  }

  lemma RunSettlesCsv(env: Env, fs: FS, k: string, r: FS)
    requires Relocate(fs, k).Moved? && FinalizeKernel(env, fs, k) == Done(r)
    ensures CsvSettled(env, r) && Relocate(r, k).Moved?
  {
    var d := RunShape(env, fs, k, r);
    PublishAgain(env, Stage(env, d), r);
    SettledAfter(env, fs, k, r);
    assert Purged(Boot(["vmlinuz-" + k]));
  }

  lemma RepeatedKernelRuns(env: Env, fs: FS, k: string, r: FS, r2: FS)
    requires Relocate(fs, k).Moved?
    requires FinalizeKernel(env, fs, k) == Done(r) && FinalizeKernel(env, r, k) == Done(r2)
    ensures WithoutUpdates(r2) == WithoutUpdates(r)
    ensures FinalizeKernel(env, r2, k) == Done(r2)
  {
    RunSettlesCsv(env, fs, k, r);
    SecondRunPublishes(env, fs, k, r);
    SecondRunPublishes(env, r, k, r2);
    RepublishFrame(env, r, r2);
    PublishAgain(env, r, r2);
  }

  /** Whatever the generator, a repeated run differs from a single one at most in the
      bootupd metadata, and from the second run on nothing changes any more. */
  lemma RepeatedRuns(env: Env, fs: FS, arg: string, r: FS, r2: FS)
    requires TotalOrder(env.le)
    requires Finalize(env, fs, arg) == Done(r) && Finalize(env, r, arg) == Done(r2)
    ensures WithoutUpdates(r2) == WithoutUpdates(r)
    ensures Finalize(env, r2, arg) == Done(r2)
  {
    var k := Kernel(env.le, fs, arg);
    SameKernel(env, fs, arg, r);
    SameKernel(env, r, arg, r2);
    if k != "" && Relocate(fs, k).Moved? {
      RepeatedKernelRuns(env, fs, k, r, r2);
    }
  }

  // ---------- kernels and cleanup ----------

  /** Visible directories of /usr/lib/modules all hold a module tree. */
  ghost predicate NoLeftovers(fs: FS) {
    forall j :: Visible(j) && Module(j, Top) in fs.dirs ==> HoldsTree(fs, j)
  }

  /** After a run without an argument no leftover directory survives, unless the run
      took an early exit and there already was one. */
  lemma CleanupExact(env: Env, fs: FS, r: FS)
    requires TotalOrder(env.le) && Finalize(env, fs, "") == Done(r)
    ensures NoLeftovers(r) <==> Completes(env, fs, "") || NoLeftovers(fs)
  {
    var k := Kernel(env.le, fs, "");
    if Completes(env, fs, "") {
      SettledAfter(env, fs, k, r);
      TreesKept(env, fs, k, r);
      forall j | Visible(j) && Module(j, Top) in r.dirs ensures HoldsTree(r, j) {
        assert !Stale(r, k, j);
      }
    }
  }

  lemma SettledAfter(env: Env, fs: FS, k: string, r: FS)
    requires Relocate(fs, k).Moved? && FinalizeKernel(env, fs, k) == Done(r)
    ensures Settled(env, r, k, env.dracut(k, DracutView(PurgeBoot(Relocate(fs, k).fs), k)).GetOr(""))
  {
    var g := Relocate(fs, k).fs;
    var img := env.dracut(k, DracutView(PurgeBoot(g), k)).value;
    RebuildSettles(env, g, k, img);
    PublishKeepsSettled(env, Rebuild(env, g, k, img), k, img, r);
  }

  /** The selected kernel ends in its module directory, taken from /boot when it was
      there; nothing visible is left in /boot, so a kernel of another version that was
      only there is gone. */
  lemma KernelInPlace(env: Env, fs: FS, k: string, r: FS)
    requires Relocate(fs, k).Moved? && FinalizeKernel(env, fs, k) == Done(r)
    ensures Module(k, Vmlinuz) in r.files
    ensures r.files[Module(k, Vmlinuz)] ==
            fs.files[if Boot(["vmlinuz-" + k]) in fs.files then Boot(["vmlinuz-" + k]) else Module(k, Vmlinuz)]
    ensures forall p :: p in r.files || p in r.dirs ==> !Purged(p)
  {
    var g := Relocate(fs, k).fs;
    var img := env.dracut(k, DracutView(PurgeBoot(g), k)).value;
    var b := DropStale(Put(PurgeBoot(g), Module(k, Initramfs), img), k);
    SettledAfter(env, fs, k, r);
    PublishFrame(env, Stage(env, b), r);
    assert AgreeAt(r, Stage(env, b), Module(k, Vmlinuz));
    StageFrame(env, b, Module(k, Vmlinuz));
  }

  // ---------- kernel hooks before the postinst ----------

  /** One firing of zz-bootc-finalize: deferred because a tool is missing, or handed to
      bootc-finalize with the hook's argument. */
  datatype HookRun = Deferred | Executed(arg: string)

  ghost function RunHooks(env: Env, fs: FS, hooks: seq<HookRun>): Outcome
    decreases |hooks|
  {
    if hooks == [] then Done(fs)
    else if hooks[0].Deferred? then RunHooks(env, fs, hooks[1..])
    else match Finalize(env, fs, hooks[0].arg)
      case Aborted => Aborted
      case Done(g) => RunHooks(env, g, hooks[1..])
  }

  /** The filesystem after one run or after two of them. */
  ghost predicate AfterARun(env: Env, d: FS, x: FS) {
    x == d || Finalize(env, d, "") == Done(x)
  }

  lemma OneMoreRun(env: Env, fs: FS, d: FS, x: FS, arg: string, g: FS)
    requires TotalOrder(env.le) && Finalize(env, fs, "") == Done(d)
    requires arg in {"", Kernel(env.le, fs, "")}
    requires x == fs || AfterARun(env, d, x)
    requires Finalize(env, x, arg) == Done(g)
    ensures AfterARun(env, d, g)
  {
    SameKernel(env, fs, "", d);
    if Finalize(env, d, "") == Done(x) {
      SameKernel(env, d, "", x);
      RepeatedRuns(env, fs, "", d, x);
    }
    assert Kernel(env.le, x, "") == Kernel(env.le, fs, "");
    assert Finalize(env, x, arg) == Finalize(env, x, "");
  }

  predicate SomeExecuted(hooks: seq<HookRun>) {
    hooks != [] && (hooks[0].Executed? || SomeExecuted(hooks[1..]))
  }

  lemma {:induction false} HooksReach(env: Env, fs: FS, d: FS, x: FS, hooks: seq<HookRun>, h: FS)
    requires TotalOrder(env.le) && Finalize(env, fs, "") == Done(d)
    requires forall run :: run in hooks && run.Executed? ==> run.arg in {"", Kernel(env.le, fs, "")}
    requires x == fs || AfterARun(env, d, x)
    requires RunHooks(env, x, hooks) == Done(h)
    ensures h == x || AfterARun(env, d, h)
    ensures SomeExecuted(hooks) ==> AfterARun(env, d, h)
    decreases |hooks|
  {
    if hooks == [] {
    } else {
      if hooks[0].Executed? {
        var g := Finalize(env, x, hooks[0].arg).fs;
        OneMoreRun(env, fs, d, x, hooks[0].arg, g);
        HooksReach(env, fs, d, g, hooks[1..], h);
      } else {
        HooksReach(env, fs, d, x, hooks[1..], h);
      }
    }
  }

  lemma {:induction false} DeferredHooks(env: Env, fs: FS, hooks: seq<HookRun>)
    requires !SomeExecuted(hooks)
    ensures RunHooks(env, fs, hooks) == Done(fs)
    decreases |hooks|
  {
    if hooks == [] {
    } else {
      DeferredHooks(env, fs, hooks[1..]);
    }
  }

  /** Any number of hook runs for the newest kernel, deferred or executed, followed by
      the postinst's run: outside the bootupd metadata the result is that of the
      postinst's run alone, and it is that of two runs in a row as soon as one hook was
      executed. It is equal to that of the postinst's run alone when that run takes an
      early exit, bootupctl is absent, the boot entry file was settled or no hook was
      executed; with a generator that reflects that file, only then. */
  lemma HooksInvisible(env: Env, fs: FS, hooks: seq<HookRun>, d: FS, h: FS, r: FS)
    requires TotalOrder(env.le) && Finalize(env, fs, "") == Done(d)
    requires forall run :: run in hooks && run.Executed? ==> run.arg in {"", Kernel(env.le, fs, "")}
    requires RunHooks(env, fs, hooks) == Done(h) && Finalize(env, h, "") == Done(r)
    ensures WithoutUpdates(r) == WithoutUpdates(d)
    ensures SomeExecuted(hooks) ==> Finalize(env, d, "") == Done(r)
    ensures !Completes(env, fs, "") || env.bootupctl.None? || Branded(env, fs) || !SomeExecuted(hooks) ==> r == d
    ensures Completes(env, fs, "") && env.bootupctl.Some? && Reflects(env, env.bootupctl.value) ==>
              (r == d <==> Branded(env, fs) || !SomeExecuted(hooks))
  {
    HooksReach(env, fs, d, fs, hooks, h);
    Idempotent(env, fs, "", d);
    if !SomeExecuted(hooks) { DeferredHooks(env, fs, hooks); }
    if h == d {
      RepeatedRuns(env, fs, "", d, r);
    } else if Finalize(env, d, "") == Done(h) {
      RepeatedRuns(env, fs, "", d, h);
    }
  }

  // ---------- the case in which a second run changes something ----------

  const FRESH := FS(map[Module("6.1", Vmlinuz) := "kernel"], {Module("6.1", Top), Module("6.1", KernelTree)})

  /** An amd64 machine whose bootupctl records the staged boot entry file. */
  const RECORDING := Env(
    Some("1"), Some("1"), (k: string, seen: FS) => Some("initramfs"),
    Some((tree: FS) => Some(if Efi(ShimDir, "1", Csv) in tree.files
                            then map["csv" := tree.files[Efi(ShimDir, "1", Csv)]] else map[])),
    (m: map<string, Content>) => Some(m), Some("entry"), LexLeq)

  /** On a fresh image the first run publishes the metadata before the boot entry file
      exists, so a second run does change the image. */
  lemma SecondRunDiffers()
    ensures exists r :: Finalize(RECORDING, FRESH, "6.1") == Done(r) && Finalize(RECORDING, r, "6.1") != Done(r)
  {
    LexIsTotal();
    assert Relocate(FRESH, "6.1") == Moved(FRESH);
    assert Completes(RECORDING, FRESH, "6.1") && !Branded(RECORDING, FRESH);
    assert Finalize(RECORDING, FRESH, "6.1").Done?;
    RecordingReflects();
    Idempotent(RECORDING, FRESH, "6.1", Finalize(RECORDING, FRESH, "6.1").fs);
  }

  lemma FreshKernel()
    ensures TotalOrder(LexLeq) && Kernel(LexLeq, FRESH, "") == "6.1"
  {
    LexIsTotal();
    assert forall j :: HoldsTree(FRESH, j) <==> j == "6.1";
    assert IsNewest(LexLeq, FRESH, "6.1");
  }

  lemma RecordingReflects()
    ensures Reflects(RECORDING, RECORDING.bootupctl.value)
  {
    var tool, p := RECORDING.bootupctl.value, Efi(ShimDir, "1", Csv);
    forall a, b | tool(a).Some? && tool(a) == tool(b) ensures SameFile(a, b, p) {
      assert "csv" in tool(a).value <==> p in a.files;
      assert "csv" in tool(b).value <==> p in b.files;
    }
  }

  /** No step of a run aborts on that machine. */
  lemma RecordingPublishes(fs: FS)
    ensures Publish(RECORDING, fs).Done?
  {
  }

  /** One executed hook before the postinst's run shows in the result when the boot entry
      file was not settled. */
  lemma HookShowsOn(env: Env, fs: FS, k: string, d: FS)
    requires TotalOrder(env.le) && k != "" && Kernel(env.le, fs, "") == k && Relocate(fs, k).Moved?
    requires FinalizeKernel(env, fs, k) == Done(d) && Publish(env, d).Done?
    requires env.bootupctl.Some? && Reflects(env, env.bootupctl.value) && !Branded(env, fs)
    ensures Finalize(env, fs, "") == Done(d) && RunHooks(env, fs, [Executed(k)]) == Done(d)
    ensures exists r :: Finalize(env, d, "") == Done(r) && r != d
  {
    SameKernel(env, fs, "", d);
    SecondRunPublishes(env, fs, k, d);
    Idempotent(env, fs, "", d);
    assert [Executed(k)][1..] == [];
    assert Finalize(env, d, "") == Done(Publish(env, d).fs);
  }

  /** On the fresh image one executed hook before the postinst's run shows in the result. */
  lemma HookShows()
    ensures exists d, r :: && Finalize(RECORDING, FRESH, "") == Done(d)
                           && RunHooks(RECORDING, FRESH, [Executed("6.1")]) == Done(d)
                           && Finalize(RECORDING, d, "") == Done(r) && r != d
  {
    FreshKernel();
    RecordingReflects();
    assert Relocate(FRESH, "6.1") == Moved(FRESH);
    RecordingPublishes(Rebuild(RECORDING, FRESH, "6.1", "initramfs"));
    var d := FinalizeKernel(RECORDING, FRESH, "6.1").fs;
    RecordingPublishes(d);
    HookShowsOn(RECORDING, FRESH, "6.1", d);
  }

  /** A kernel directory without its vmlinuz, beside the leftover of a removed kernel. */
  const LEFTOVER := FS(map[], {Module("6.1", Top), Module("6.1", KernelTree), Module("5.0", Top)})

  /** A run that takes an early exit leaves such a leftover in place. */
  lemma LeftoverSurvives()
    ensures Finalize(RECORDING, LEFTOVER, "") == Done(LEFTOVER) && !NoLeftovers(LEFTOVER)
  {
    LexIsTotal();
    assert LexLeq("6.1", "6.1");
    assert forall j :: HoldsTree(LEFTOVER, j) <==> j == "6.1";
    assert IsNewest(LexLeq, LEFTOVER, "6.1");
    assert Kernel(LexLeq, LEFTOVER, "") == "6.1";
    assert Relocate(LEFTOVER, "6.1") == Absent;
    assert "5.0"[0] != "6.1"[0];
    assert Visible("5.0") && Module("5.0", Top) in LEFTOVER.dirs && !HoldsTree(LEFTOVER, "5.0");
  }
}
