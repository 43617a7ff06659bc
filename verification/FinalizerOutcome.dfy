/** What one completed run of bootc-finalize, or of the bootupd postinst, leaves at which
    path, said on the paths alone. */
module FinalizerOutcome {
  import opened Text
  import opened Sorting
  import opened Image
  import opened Finalizer
  import opened FinalizerLaws
  import opened EfiStaging

  /** src is gone and dst holds what was at src, or before at dst. */
  predicate Landed(fs: FS, r: FS, src: Path, dst: Path) {
    src !in r.files && Kept(r, src, dst) == Kept(fs, src, dst)
  }

  lemma MoveLands(fs: FS, src: Path, dst: Path)
    requires src != dst
    ensures Landed(fs, Move(fs, src, dst), src, dst)
  {
  }

  lemma LandedKept(fs: FS, x: FS, y: FS, src: Path, dst: Path)
    requires Landed(fs, x, src, dst) && AgreeAt(y, x, src) && AgreeAt(y, x, dst)
    ensures Landed(fs, y, src, dst)
  {
  }

  lemma LandedFrom(fs: FS, x: FS, y: FS, src: Path, dst: Path)
    requires Landed(x, y, src, dst) && SameFile(x, fs, src) && SameFile(x, fs, dst)
    ensures Landed(fs, y, src, dst)
  {
  }

  // ---------- staging ----------

  lemma StageGrub(env: Env, fs: FS)
    requires env.shim.Some? && env.shim.value != "" && env.grub.Some? && env.grub.value != ""
    ensures Landed(fs, Stage(env, fs), Package(Binary.Grub), Efi(Grub2Dir, env.grub.value, Primary(Binary.Grub)))
  {
    var src, dst := Package(Binary.Grub), Efi(Grub2Dir, env.grub.value, Primary(Binary.Grub));
    var m := Mkdir(fs, StageDirs(env));
    var x := Move(m, src, env.At(Binary.Grub));
    MoveLands(m, src, dst);
    LandedFrom(fs, m, x, src, dst);
    forall p | p == src || p == dst ensures AgreeAt(Stage(env, fs), x, p) {
      StagedAfterGrub(env, x, p);
    }
    LandedKept(fs, x, Stage(env, fs), src, dst);
  }

  /** What follows the first move leaves the GRUB paths alone. */
  lemma StagedAfterGrub(env: Env, x: FS, p: Path)
    requires p == Package(Binary.Grub) || (p.Efi? && p.slot == Primary(Binary.Grub))
    ensures var y := StageShim(env, x);
            var z := Move(y, Package(Fallback), env.At(Fallback));
            AgreeAt(Move(z, Package(MokManager), env.At(MokManager)), x, p)
  {
    var y := StageShim(env, x);
    ShimFrame(env, x, p);
    var z := Move(y, Package(Fallback), env.At(Fallback));
    MoveFrame(y, Package(Fallback), env.At(Fallback), p);
    MoveFrame(z, Package(MokManager), env.At(MokManager), p);
  }

  /** The state in which the shim is staged. */
  function BeforeShim(env: Env, fs: FS): FS {
    Move(Mkdir(fs, StageDirs(env)), Package(Binary.Grub), env.At(Binary.Grub))
  }

  lemma BeforeShimFrame(env: Env, fs: FS, p: Path)
    requires p != Package(Binary.Grub) && !(p.Efi? && p.slot == Primary(Binary.Grub))
    ensures SameFile(BeforeShim(env, fs), fs, p)
  {
    MoveFrame(Mkdir(fs, StageDirs(env)), Package(Binary.Grub), env.At(Binary.Grub), p);
  }

  lemma StageShimLands(env: Env, fs: FS)
    requires env.shim.Some? && env.shim.value != "" && env.grub.Some? && env.grub.value != ""
    ensures Landed(fs, Stage(env, fs), Package(Binary.Shim), Efi(ShimDir, env.shim.value, Primary(Binary.Shim)))
    ensures var s := Stage(env, fs);
            Efi(ShimDir, env.shim.value, Primary(Binary.Shim)) in s.files ==>
              && Efi(ShimDir, env.shim.value, VendorShim) in s.files
              && s.files[Efi(ShimDir, env.shim.value, VendorShim)] == s.files[Efi(ShimDir, env.shim.value, Primary(Binary.Shim))]
  {
    var src, dst, vendor := Package(Binary.Shim), Efi(ShimDir, env.shim.value, Primary(Binary.Shim)), Efi(ShimDir, env.shim.value, VendorShim);
    var a := BeforeShim(env, fs);
    BeforeShimFrame(env, fs, src);
    BeforeShimFrame(env, fs, dst);
    MoveLands(a, src, dst);
    var b := StageShim(env, a);
    LandedKept(a, Move(a, src, dst), b, src, dst);
    LandedFrom(fs, a, b, src, dst);
    var c := Move(b, Package(Fallback), env.At(Fallback));
    forall p | p in {src, dst, vendor} ensures AgreeAt(Stage(env, fs), b, p) {
      MoveFrame(b, Package(Fallback), env.At(Fallback), p);
      MoveFrame(c, Package(MokManager), env.At(MokManager), p);
    }
    assert AgreeAt(Stage(env, fs), b, src) && AgreeAt(Stage(env, fs), b, dst) && AgreeAt(Stage(env, fs), b, vendor);
    LandedKept(fs, b, Stage(env, fs), src, dst);
  }

  lemma StageFallback(env: Env, fs: FS)
    requires env.shim.Some? && env.shim.value != "" && env.grub.Some? && env.grub.value != ""
    ensures Landed(fs, Stage(env, fs), Package(Fallback), Efi(ShimDir, env.shim.value, Primary(Fallback)))
  {
    var src, dst := Package(Fallback), Efi(ShimDir, env.shim.value, Primary(Fallback));
    var b := StageShim(env, BeforeShim(env, fs));
    forall p | p == src || p == dst ensures SameFile(b, fs, p) {
      BeforeShimFrame(env, fs, p);
      ShimFrame(env, BeforeShim(env, fs), p);
    }
    MoveLands(b, src, dst);
    var c := Move(b, src, dst);
    LandedFrom(fs, b, c, src, dst);
    MoveFrame(c, Package(MokManager), env.At(MokManager), src);
    MoveFrame(c, Package(MokManager), env.At(MokManager), dst);
    LandedKept(fs, c, Stage(env, fs), src, dst);
  }

  lemma StageMok(env: Env, fs: FS)
    requires env.shim.Some? && env.shim.value != "" && env.grub.Some? && env.grub.value != ""
    ensures Landed(fs, Stage(env, fs), Package(MokManager), Efi(ShimDir, env.shim.value, Primary(MokManager)))
  {
    var src, dst := Package(MokManager), Efi(ShimDir, env.shim.value, Primary(MokManager));
    var b := StageShim(env, BeforeShim(env, fs));
    var c := Move(b, Package(Fallback), env.At(Fallback));
    forall p | p == src || p == dst ensures SameFile(c, fs, p) {
      BeforeShimFrame(env, fs, p);
      ShimFrame(env, BeforeShim(env, fs), p);
      MoveFrame(b, Package(Fallback), env.At(Fallback), p);
    }
    MoveLands(c, src, dst);
    LandedFrom(fs, c, Stage(env, fs), src, dst);
  }

  lemma LandedThrough(env: Env, fs: FS, k: string, r: FS, d: FS, src: Path, dst: Path)
    requires Publish(env, Stage(env, d)) == Done(r) && Landed(d, Stage(env, d), src, dst)
    requires AgreeAt(d, fs, src) && AgreeAt(d, fs, dst)
    requires src.Package? && dst.Efi? && dst.slot.Primary?
    ensures Landed(fs, r, src, dst)
  {
    LandedFrom(fs, d, Stage(env, d), src, dst);
    PublishedAt(env, Stage(env, d), r, src);
    PublishedAt(env, Stage(env, d), r, dst);
    LandedKept(fs, Stage(env, d), r, src, dst);
  }

  /** With both signed packages installed, a completed run takes every packaged binary to
      its staged path: GRUB to the grub2 component, the shim, the fallback and MokManager
      to the shim component, and the shim also to the vendor directory. */
  lemma StagedExactly(env: Env, fs: FS, k: string, r: FS)
    requires env.shim.Some? && env.shim.value != "" && env.grub.Some? && env.grub.value != ""
    requires Relocate(fs, k).Moved? && FinalizeKernel(env, fs, k) == Done(r)
    ensures Landed(fs, r, Package(Binary.Grub), Efi(Grub2Dir, env.grub.value, Primary(Binary.Grub)))
    ensures Landed(fs, r, Package(Binary.Shim), Efi(ShimDir, env.shim.value, Primary(Binary.Shim)))
    ensures Landed(fs, r, Package(Fallback), Efi(ShimDir, env.shim.value, Primary(Fallback)))
    ensures Landed(fs, r, Package(MokManager), Efi(ShimDir, env.shim.value, Primary(MokManager)))
    ensures Package(Binary.Shim) in fs.files || Efi(ShimDir, env.shim.value, Primary(Binary.Shim)) in fs.files ==>
              && Efi(ShimDir, env.shim.value, VendorShim) in r.files
              && Some(r.files[Efi(ShimDir, env.shim.value, VendorShim)])
                 == Kept(fs, Package(Binary.Shim), Efi(ShimDir, env.shim.value, Primary(Binary.Shim)))
  {
    var d := RunShape(env, fs, k, r);
    var v := env.shim.value;
    StageGrub(env, d);
    LandedThrough(env, fs, k, r, d, Package(Binary.Grub), Efi(Grub2Dir, env.grub.value, Primary(Binary.Grub)));
    StageShimLands(env, d);
    LandedThrough(env, fs, k, r, d, Package(Binary.Shim), Efi(ShimDir, v, Primary(Binary.Shim)));
    PublishedAt(env, Stage(env, d), r, Efi(ShimDir, v, VendorShim));
    PublishedAt(env, Stage(env, d), r, Efi(ShimDir, v, Primary(Binary.Shim)));
    StageFallback(env, d);
    LandedThrough(env, fs, k, r, d, Package(Fallback), Efi(ShimDir, v, Primary(Fallback)));
    StageMok(env, d);
    LandedThrough(env, fs, k, r, d, Package(MokManager), Efi(ShimDir, v, Primary(MokManager)));
  }

  /** Without one of the two packages a completed run leaves every packaged binary, and
      every staged one, where it was. */
  lemma UnsignedKept(env: Env, fs: FS, k: string, r: FS, p: Path)
    requires env.shim.GetOr("") == "" || env.grub.GetOr("") == ""
    requires Relocate(fs, k).Moved? && FinalizeKernel(env, fs, k) == Done(r)
    requires p.Package? || (p.Efi? && p.slot != Csv)
    ensures AgreeAt(r, fs, p)
  {
    var d := RunShape(env, fs, k, r);
    PublishedAt(env, d, r, p);
    assert AgreeAt(d, fs, p);
  }

  // ---------- the rest of a run ----------

  /** The early exits: without a kernel to move or in place nothing is written, and a
      kernel in /boot whose module directory is missing aborts. Every other run goes on
      to dracut. */
  lemma EarlyExits(env: Env, fs: FS, k: string)
    ensures Boot(["vmlinuz-" + k]) !in fs.files && Module(k, Vmlinuz) !in fs.files ==> FinalizeKernel(env, fs, k) == Done(fs)
    ensures Boot(["vmlinuz-" + k]) in fs.files && Module(k, Top) !in fs.dirs ==> FinalizeKernel(env, fs, k) == Aborted
    ensures Relocate(fs, k).Moved? <==>
              if Boot(["vmlinuz-" + k]) in fs.files then Module(k, Top) in fs.dirs else Module(k, Vmlinuz) in fs.files
  {
  }

  /** The selected kernel: the argument when there is one, otherwise the greatest visible
      directory with a module tree, that is a kernel directory or a modules.dep. */
  lemma SelectedExactly(le: (string, string) -> bool, fs: FS, arg: string)
    requires TotalOrder(le)
    ensures var k := Kernel(le, fs, arg);
            if arg != "" then k == arg
            else if k == "" then
              forall j: string :: j != "" && j[0] != '.' ==> Module(j, KernelTree) !in fs.dirs && Module(j, ModulesDep) !in fs.files
            else
              && k[0] != '.' && (Module(k, KernelTree) in fs.dirs || Module(k, ModulesDep) in fs.files)
              && forall j: string :: j != "" && j[0] != '.' && (Module(j, KernelTree) in fs.dirs || Module(j, ModulesDep) in fs.files)
                                     ==> le(j, k)
  {
    var k := Kernel(le, fs, arg);
    if arg == "" {
      if k == "" {
        NoneSelected(le, fs);
        forall j: string | j != "" && j[0] != '.' ensures Module(j, KernelTree) !in fs.dirs && Module(j, ModulesDep) !in fs.files {
          assert Visible(j) && !HoldsTree(fs, j);
        }
      } else {
        assert IsNewest(le, fs, k);
        forall j: string | j != "" && j[0] != '.' && (Module(j, KernelTree) in fs.dirs || Module(j, ModulesDep) in fs.files)
          ensures le(j, k)
        {
          assert Visible(j) && HoldsTree(fs, j);
        }
      }
    }
  }

  /** A finite set of names has a greatest one, so nothing is selected only when there is
      nothing to select. */
  lemma NoneSelected(le: (string, string) -> bool, fs: FS)
    requires TotalOrder(le) && Kernel(le, fs, "") == ""
    ensures forall j: string :: Visible(j) ==> !HoldsTree(fs, j)
  {
    var names := TreeNames(fs);
    if j: string :| Visible(j) && HoldsTree(fs, j) {
      assert j in names;
      var k := Greatest(le, names);
      assert IsNewest(le, fs, k);
    }
  }

  function TreeNames(fs: FS): (r: set<string>)
    ensures forall k :: k in r <==> Visible(k) && HoldsTree(fs, k)
  {
    set p | p in fs.files.Keys + fs.dirs && p.Module? && Visible(p.kver) && HoldsTree(fs, p.kver) :: p.kver
  }

  lemma {:induction false} Greatest(le: (string, string) -> bool, names: set<string>) returns (k: string)
    requires TotalOrder(le) && names != {}
    ensures k in names && forall j :: j in names ==> le(j, k)
  {
    var x :| x in names;
    k := x;
    if names - {x} == {} {
      assert forall j :: j in names ==> j == x || j in names - {x};
    } else {
      var m := Greatest(le, names - {x});
      k := if le(m, x) then x else m;
      assert forall j :: j in names ==> j == x || j in names - {x};
    }
  }

  /** A completed run leaves only dot entries in /boot, and no visible module directory
      without a module tree but the selected one. */
  lemma RunClears(env: Env, fs: FS, k: string, r: FS)
    requires Relocate(fs, k).Moved? && FinalizeKernel(env, fs, k) == Done(r)
    ensures forall rel: seq<string> :: rel != [] && rel[0] != "" && rel[0][0] != '.' ==>
              Boot(rel) !in r.files && Boot(rel) !in r.dirs
    ensures forall j: string :: j != k && j != "" && j[0] != '.' && Module(j, Top) in r.dirs ==>
              Module(j, KernelTree) in r.dirs || Module(j, ModulesDep) in r.files
  {
    SettledAfter(env, fs, k, r);
    var img := env.dracut(k, DracutView(PurgeBoot(Relocate(fs, k).fs), k)).GetOr("");
    SettledClears(env, r, k, img);
  }

  lemma SettledClears(env: Env, r: FS, k: string, img: Content)
    requires Settled(env, r, k, img)
    ensures forall rel: seq<string> :: rel != [] && rel[0] != "" && rel[0][0] != '.' ==>
              Boot(rel) !in r.files && Boot(rel) !in r.dirs
    ensures forall j: string :: j != k && j != "" && j[0] != '.' && Module(j, Top) in r.dirs ==>
              Module(j, KernelTree) in r.dirs || Module(j, ModulesDep) in r.files
  {
    forall rel: seq<string> | rel != [] && rel[0] != "" && rel[0][0] != '.' ensures Boot(rel) !in r.files && Boot(rel) !in r.dirs {
      assert Purged(Boot(rel));
    }
    forall j: string | j != k && j != "" && j[0] != '.' && Module(j, Top) in r.dirs
      ensures Module(j, KernelTree) in r.dirs || Module(j, ModulesDep) in r.files
    {
      assert !Stale(r, k, j);
    }
  }

  /** A visible module directory without a module tree, other than the selected one. */
  predicate Leftover(fs: FS, k: string, j: string) {
    && j != k && j != "" && j[0] != '.' && Module(j, Top) in fs.dirs
    && Module(j, KernelTree) !in fs.dirs && Module(j, ModulesDep) !in fs.files
  }

  /** A completed run removes the leftovers with everything below them; of every other
      module directory it changes only the selected kernel and its initramfs. */
  lemma ModulesExactly(env: Env, fs: FS, k: string, r: FS, j: string, e: Entry)
    requires Relocate(fs, k).Moved? && FinalizeKernel(env, fs, k) == Done(r)
    ensures Leftover(fs, k, j) ==> Module(j, e) !in r.files && Module(j, e) !in r.dirs
    ensures !Leftover(fs, k, j) && !(j == k && e in {Vmlinuz, Initramfs}) ==> AgreeAt(r, fs, Module(j, e))
  {
    var g := Relocate(fs, k).fs;
    var img := env.dracut(k, DracutView(PurgeBoot(g), k)).value;
    var d := DropStale(Put(PurgeBoot(g), Module(k, Initramfs), img), k);
    PublishedModules(env, d, r, j, e);
    DroppedAt(g, k, img, j, e);
    if j != k {
      RelocateKeeps(fs, k, j, Top);
      RelocateKeeps(fs, k, j, KernelTree);
      RelocateKeeps(fs, k, j, ModulesDep);
    }
    if j != k || e != Vmlinuz { RelocateKeeps(fs, k, j, e); }
  }

  lemma DroppedAt(g: FS, k: string, img: Content, j: string, e: Entry)
    ensures var d := DropStale(Put(PurgeBoot(g), Module(k, Initramfs), img), k);
            && (Leftover(g, k, j) ==> Module(j, e) !in d.files && Module(j, e) !in d.dirs)
            && (!Leftover(g, k, j) && !(j == k && e == Initramfs) ==> AgreeAt(d, g, Module(j, e)))
  {
    var a := Put(PurgeBoot(g), Module(k, Initramfs), img);
    assert AgreeAt(a, g, Module(j, Top));
    if j != k {
      assert AgreeAt(a, g, Module(j, KernelTree)) && AgreeAt(a, g, Module(j, ModulesDep)) && AgreeAt(a, g, Module(j, e));
    }
    assert Stale(a, k, j) <==> Leftover(g, k, j);
  }

  /** The initramfs of the selected kernel is the one dracut makes of the module
      directory the run leaves. */
  lemma InitramfsFits(env: Env, fs: FS, k: string, r: FS)
    requires Relocate(fs, k).Moved? && FinalizeKernel(env, fs, k) == Done(r)
    ensures Module(k, Initramfs) in r.files
    ensures exists seen :: && env.dracut(k, seen) == Some(r.files[Module(k, Initramfs)])
                           && forall e :: e != Initramfs ==> AgreeAt(seen, r, Module(k, e))
  {
    var g := Relocate(fs, k).fs;
    var img := env.dracut(k, DracutView(PurgeBoot(g), k)).value;
    SettledAfter(env, fs, k, r);
    ViewKept(env, g, k, img, r);
    SeenModules(r, k);
  }

  lemma SeenModules(r: FS, k: string)
    ensures forall e :: e != Initramfs ==> AgreeAt(DracutView(PurgeBoot(r), k), r, Module(k, e))
  {
  }

  /** Dot entries of /boot, and every file outside the areas a run works in, stay. */
  lemma OthersStay(env: Env, fs: FS, k: string, r: FS, p: Path)
    requires Relocate(fs, k).Moved? && FinalizeKernel(env, fs, k) == Done(r)
    requires p.Elsewhere? || p.PackageCsv? || p.PackageCsvArm? || p in {Package(ShimArm), Package(MokArm)}
             || (p.Boot? && p.rel != [] && (p.rel[0] == "" || p.rel[0][0] == '.'))
    ensures AgreeAt(r, fs, p)
  {
    var g := Relocate(fs, k).fs;
    var img := env.dracut(k, DracutView(PurgeBoot(g), k)).value;
    var d := DropStale(Put(PurgeBoot(g), Module(k, Initramfs), img), k);
    PublishedAt(env, Stage(env, d), r, p);
    if p.Package? {
      if env.Signed() { StageLeaves(env, d, p); }
    } else {
      StageFrame(env, d, p);
    }
    assert Visible("vmlinuz-" + k) by { assert ("vmlinuz-" + k)[0] == 'v'; }
    assert AgreeAt(d, fs, p);
  }

  lemma StageLeaves(env: Env, fs: FS, p: Path)
    requires env.Signed() && p in {Package(ShimArm), Package(MokArm)}
    ensures AgreeAt(Stage(env, fs), fs, p)
  {
    var m := Mkdir(fs, StageDirs(env));
    var x := Move(m, Package(Binary.Grub), env.At(Binary.Grub));
    MoveFrame(m, Package(Binary.Grub), env.At(Binary.Grub), p);
    var y := StageShim(env, x);
    ShimFrame(env, x, p);
    var z := Move(y, Package(Fallback), env.At(Fallback));
    MoveFrame(y, Package(Fallback), env.At(Fallback), p);
    MoveFrame(z, Package(MokManager), env.At(MokManager), p);
  }

  /** With a shim version and its vendor directory, a completed run ends with the product's
      boot entry there; with bootupctl, the metadata area holds exactly what it generated
      from the staged tree before that entry was written. */
  lemma PublishedExactly(env: Env, fs: FS, k: string, r: FS)
    requires Relocate(fs, k).Moved? && FinalizeKernel(env, fs, k) == Done(r)
    ensures env.shim.GetOr("") != "" && Efi(ShimDir, env.shim.value, VendorDir) in r.dirs ==>
              Efi(ShimDir, env.shim.value, Csv) in r.files && Some(r.files[Efi(ShimDir, env.shim.value, Csv)]) == env.csv
    ensures env.bootupctl.Some? ==>
              exists tree, m :: && env.bootupctl.value(tree) == Some(m)
                                && (forall n :: Updates(n) in r.files <==> n in m)
                                && (forall n :: n in m ==> r.files[Updates(n)] == m[n])
                                && (forall p: Path :: p.Efi? && p.slot != Csv ==> AgreeAt(tree, r, p))
  {
    var d := RunShape(env, fs, k, r);
    EntryPublished(env, Stage(env, d), r);
    if env.bootupctl.Some? {
      MetadataPublished(env, Stage(env, d), r);
    }
  }

  lemma EntryPublished(env: Env, s: FS, r: FS)
    requires Publish(env, s) == Done(r)
    ensures env.shim.GetOr("") != "" && Efi(ShimDir, env.shim.value, VendorDir) in r.dirs ==>
              Efi(ShimDir, env.shim.value, Csv) in r.files && Some(r.files[Efi(ShimDir, env.shim.value, Csv)]) == env.csv
  {
    PublishFrame(env, s, r);
    if env.shim.GetOr("") != "" {
      PublishedAt(env, s, r, Efi(ShimDir, env.shim.value, VendorDir));
    }
  }

  lemma MetadataPublished(env: Env, s: FS, r: FS)
    requires Publish(env, s) == Done(r) && env.bootupctl.Some?
    ensures exists tree, m :: && env.bootupctl.value(tree) == Some(m)
                              && (forall n :: Updates(n) in r.files <==> n in m)
                              && (forall n :: n in m ==> r.files[Updates(n)] == m[n])
                              && (forall p: Path :: p.Efi? && p.slot != Csv ==> AgreeAt(tree, r, p))
  {
    var m := env.bootupctl.value(EfiTree(s)).value;
    forall n ensures (Updates(n) in r.files <==> n in m) && (n in m ==> r.files[Updates(n)] == m[n]) {
      UpdatesHold(s, m, n);
    }
    forall p: Path | p.Efi? && p.slot != Csv ensures AgreeAt(EfiTree(s), r, p) {
      PublishedAt(env, s, r, p);
      EfiTreeAt(s, p);
    }
  }

  lemma EfiTreeAt(s: FS, p: Path)
    requires p.Efi?
    ensures AgreeAt(EfiTree(s), s, p)
  {
  }

  // ---------- the bootupd postinst ----------

  /** dst holds what is at src, or what it held when src is absent; src stays. */
  predicate Copied(fs: FS, r: FS, src: Path, dst: Path) {
    SameFile(r, fs, src) && (if src in fs.files then dst in r.files && r.files[dst] == fs.files[src] else SameFile(r, fs, dst))
  }

  lemma CopyLands(fs: FS, src: Path, dst: Path)
    requires src != dst
    ensures Copied(fs, Copy(fs, src, dst), src, dst)
  {
  }

  lemma CopyKept(fs: FS, src: Path, dst: Path, p: Path)
    requires p != dst
    ensures SameFile(Copy(fs, src, dst), fs, p)
  {
  }

  lemma CopiedThen(fs: FS, x: FS, src: Path, dst: Path, s: Path, d: Path)
    requires Copied(fs, x, src, dst) && d != src && d != dst
    ensures Copied(fs, Copy(x, s, d), src, dst)
  {
  }

  lemma CopiedOnto(fs: FS, x: FS, src: Path, dst: Path)
    requires src != dst && SameFile(x, fs, src) && SameFile(x, fs, dst)
    ensures Copied(fs, Copy(x, src, dst), src, dst)
  {
  }

  /** Three copies to three places. */
  lemma CopyThree(fs: FS, s1: Path, d1: Path, s2: Path, d2: Path, s3: Path, d3: Path)
    requires d1 != d2 && d1 != d3 && d2 != d3
    requires s1 != d1 && s1 != d2 && s1 != d3
    requires s2 != d1 && s2 != d2 && s2 != d3
    requires s3 != d1 && s3 != d2 && s3 != d3
    ensures var r := Copy(Copy(Copy(fs, s1, d1), s2, d2), s3, d3);
            Copied(fs, r, s1, d1) && Copied(fs, r, s2, d2) && Copied(fs, r, s3, d3)
  {
    CopyTwo(fs, s1, d1, s2, d2);
    var y := Copy(Copy(fs, s1, d1), s2, d2);
    CopiedThen(fs, y, s1, d1, s3, d3);
    CopiedThen(fs, y, s2, d2, s3, d3);
    KeptTwice(fs, s1, d1, s2, d2, s3);
    KeptTwice(fs, s1, d1, s2, d2, d3);
    CopiedOnto(fs, y, s3, d3);
  }

  lemma CopyTwo(fs: FS, s1: Path, d1: Path, s2: Path, d2: Path)
    requires d1 != d2 && s1 != d1 && s1 != d2 && s2 != d1 && s2 != d2
    ensures var r := Copy(Copy(fs, s1, d1), s2, d2);
            Copied(fs, r, s1, d1) && Copied(fs, r, s2, d2)
  {
    CopyLands(fs, s1, d1);
    CopiedThen(fs, Copy(fs, s1, d1), s1, d1, s2, d2);
    CopyKept(fs, s1, d1, s2);
    CopyKept(fs, s1, d1, d2);
    CopiedOnto(fs, Copy(fs, s1, d1), s2, d2);
  }

  lemma KeptTwice(fs: FS, s1: Path, d1: Path, s2: Path, d2: Path, p: Path)
    requires p != d1 && p != d2
    ensures SameFile(Copy(Copy(fs, s1, d1), s2, d2), fs, p)
  {
    CopyKept(fs, s1, d1, p);
    CopyKept(Copy(fs, s1, d1), s2, d2, p);
  }

  lemma CopiedAround(fs: FS, x: FS, y: FS, r: FS, src: Path, dst: Path)
    requires SameFile(x, fs, src) && SameFile(x, fs, dst) && Copied(x, y, src, dst)
    requires SameFile(r, y, src) && SameFile(r, y, dst)
    ensures Copied(fs, r, src, dst)
  {
  }

  lemma X64Leaves(v: string, fs: FS, p: Path)
    requires !(p.Efi? && p.slot in {Primary(Binary.Shim), VendorShim, Primary(MokManager)})
    ensures SameFile(CopyX64(v, fs), fs, p)
  {
  }

  lemma ArmLeaves(v: string, fs: FS, p: Path)
    requires !(p.Efi? && p.slot in {Primary(ShimArm), VendorShimArm, Primary(MokArm)})
    ensures SameFile(CopyArm(v, fs), fs, p)
  {
  }

  lemma CsvLeaves(env: Env, fs: FS, p: Path)
    requires !(p.Efi? && p.slot in {Csv, CsvArm})
    ensures SameFile(CopyCsv(env, fs), fs, p)
  {
  }

  /** A copy of the EFI part survives the rest of the postinst. */
  lemma ConfiguredCopy(env: Env, fs: FS, g: FS, p: Path)
    requires Configure(env, fs) == Done(g) && !p.Updates? && !(p.Efi? && p.slot in {Csv, CsvArm})
    ensures SameFile(g, CopyEfi(env, fs), p)
  {
    var h := CopyEfi(env, fs);
    var d := env.setDefault(env.bootupctl.value(EfiTree(h)).value).value;
    UpdatesFrame(h, d, p);
    CsvLeaves(env, PutUpdates(h, d), p);
  }

  /** The postinst copies the shim of either architecture to the firmware's path and to the
      vendor directory, and MokManager beside it; an unknown shim version counts as 0. */
  lemma ConfiguredExactly(env: Env, fs: FS, g: FS)
    requires Configure(env, fs) == Done(g)
    ensures var v := if env.shim.Some? then env.shim.value else "0";
            && Copied(fs, g, Package(Binary.Shim), Efi(ShimDir, v, Primary(Binary.Shim)))
            && Copied(fs, g, Package(Binary.Shim), Efi(ShimDir, v, VendorShim))
            && Copied(fs, g, Package(MokManager), Efi(ShimDir, v, Primary(MokManager)))
            && Copied(fs, g, Package(ShimArm), Efi(ShimDir, v, Primary(ShimArm)))
            && Copied(fs, g, Package(ShimArm), Efi(ShimDir, v, VendorShimArm))
            && Copied(fs, g, Package(MokArm), Efi(ShimDir, v, Primary(MokArm)))
  {
    var v := if env.shim.Some? then env.shim.value else "0";
    X64Configured(env, fs, g, v);
    ArmConfigured(env, fs, g, v);
  }

  lemma X64Configured(env: Env, fs: FS, g: FS, v: string)
    requires Configure(env, fs) == Done(g) && v == if env.shim.Some? then env.shim.value else "0"
    ensures Copied(fs, g, Package(Binary.Shim), Efi(ShimDir, v, Primary(Binary.Shim)))
    ensures Copied(fs, g, Package(Binary.Shim), Efi(ShimDir, v, VendorShim))
    ensures Copied(fs, g, Package(MokManager), Efi(ShimDir, v, Primary(MokManager)))
  {
    var m := Mkdir(fs, {Efi(ShimDir, v, BootDir), Efi(ShimDir, v, VendorDir), Updates("")});
    var s, k := Package(Binary.Shim), Package(MokManager);
    var d1, d2, d3 := Efi(ShimDir, v, Primary(Binary.Shim)), Efi(ShimDir, v, VendorShim), Efi(ShimDir, v, Primary(MokManager));
    CopyThree(m, s, d1, s, d2, k, d3);
    forall p | p in {s, k, d1, d2, d3} ensures SameFile(g, CopyX64(v, m), p) {
      ArmLeaves(v, CopyX64(v, m), p);
      ConfiguredCopy(env, fs, g, p);
    }
    CopiedAround(fs, m, CopyX64(v, m), g, s, d1);
    CopiedAround(fs, m, CopyX64(v, m), g, s, d2);
    CopiedAround(fs, m, CopyX64(v, m), g, k, d3);
  }

  lemma ArmConfigured(env: Env, fs: FS, g: FS, v: string)
    requires Configure(env, fs) == Done(g) && v == if env.shim.Some? then env.shim.value else "0"
    ensures Copied(fs, g, Package(ShimArm), Efi(ShimDir, v, Primary(ShimArm)))
    ensures Copied(fs, g, Package(ShimArm), Efi(ShimDir, v, VendorShimArm))
    ensures Copied(fs, g, Package(MokArm), Efi(ShimDir, v, Primary(MokArm)))
  {
    var m := CopyX64(v, Mkdir(fs, {Efi(ShimDir, v, BootDir), Efi(ShimDir, v, VendorDir), Updates("")}));
    var s, k := Package(ShimArm), Package(MokArm);
    var d1, d2, d3 := Efi(ShimDir, v, Primary(ShimArm)), Efi(ShimDir, v, VendorShimArm), Efi(ShimDir, v, Primary(MokArm));
    CopyThree(m, s, d1, s, d2, k, d3);
    forall p | p in {s, k, d1, d2, d3} ensures SameFile(m, fs, p) && SameFile(g, CopyArm(v, m), p) {
      X64Leaves(v, Mkdir(fs, {Efi(ShimDir, v, BootDir), Efi(ShimDir, v, VendorDir), Updates("")}), p);
      ConfiguredCopy(env, fs, g, p);
    }
    CopiedAround(fs, m, CopyArm(v, m), g, s, d1);
    CopiedAround(fs, m, CopyArm(v, m), g, s, d2);
    CopiedAround(fs, m, CopyArm(v, m), g, k, d3);
  }

  /** The metadata area of g is m, and tree is the EFI tree of g but for the boot entries. */
  ghost predicate Describes(tree: FS, m: map<string, Content>, g: FS) {
    && (forall n :: Updates(n) in g.files <==> n in m)
    && (forall n :: n in m ==> g.files[Updates(n)] == m[n])
    && (forall p: Path :: p.Efi? && p.slot !in {Csv, CsvArm} ==> SameFile(tree, g, p))
  }

  /** The postinst's metadata is what bootupctl generated from the staged tree with the
      default bootloader recorded. */
  lemma ConfiguredMetadata(env: Env, fs: FS, g: FS)
    requires Configure(env, fs) == Done(g)
    ensures env.bootupctl.Some?
    ensures exists tree, m, d :: env.bootupctl.value(tree) == Some(m) && env.setDefault(m) == Some(d) && Describes(tree, d, g)
  {
    var h := CopyEfi(env, fs);
    var tree := EfiTree(h);
    var m := env.bootupctl.value(tree).value;
    var d := env.setDefault(m).value;
    Written(env, h, d, g);
  }

  lemma Written(env: Env, h: FS, d: map<string, Content>, g: FS)
    requires g == CopyCsv(env, PutUpdates(h, d))
    ensures Describes(EfiTree(h), d, g)
  {
    WrittenMetadata(env, h, d, g);
    WrittenTree(env, h, d, g);
  }

  lemma WrittenMetadata(env: Env, h: FS, d: map<string, Content>, g: FS)
    requires g == CopyCsv(env, PutUpdates(h, d))
    ensures forall n :: Updates(n) in g.files <==> n in d
    ensures forall n :: n in d ==> g.files[Updates(n)] == d[n]
  {
    forall n ensures (Updates(n) in g.files <==> n in d) && (n in d ==> g.files[Updates(n)] == d[n]) {
      UpdatesHold(h, d, n);
      CsvLeaves(env, PutUpdates(h, d), Updates(n));
    }
  }

  lemma WrittenTree(env: Env, h: FS, d: map<string, Content>, g: FS)
    requires g == CopyCsv(env, PutUpdates(h, d))
    ensures forall p: Path :: p.Efi? && p.slot !in {Csv, CsvArm} ==> SameFile(EfiTree(h), g, p)
  {
    forall p: Path | p.Efi? && p.slot !in {Csv, CsvArm} ensures SameFile(EfiTree(h), g, p) {
      UpdatesFrame(h, d, p);
      CsvLeaves(env, PutUpdates(h, d), p);
      EfiTreeAt(h, p);
    }
  }

  /** The packaged boot entries, one an architecture, end in the vendor directory. */
  lemma ConfiguredEntries(env: Env, fs: FS, g: FS)
    requires Configure(env, fs) == Done(g)
    ensures var v := if env.shim.Some? then env.shim.value else "0";
            && (PackageCsv in fs.files ==> Efi(ShimDir, v, Csv) in g.files && g.files[Efi(ShimDir, v, Csv)] == fs.files[PackageCsv])
            && (PackageCsvArm in fs.files ==>
                  Efi(ShimDir, v, CsvArm) in g.files && g.files[Efi(ShimDir, v, CsvArm)] == fs.files[PackageCsvArm])
  {
    var h := CopyEfi(env, fs);
    var d := env.setDefault(env.bootupctl.value(EfiTree(h)).value).value;
    PackagedCsv(env, fs, PackageCsv);
    PackagedCsv(env, fs, PackageCsvArm);
    UpdatesFrame(h, d, PackageCsv);
    UpdatesFrame(h, d, PackageCsvArm);
    CsvLands(env, PutUpdates(h, d));
  }

  lemma CsvLands(env: Env, u: FS)
    ensures var v := if env.shim.Some? then env.shim.value else "0";
            var g := CopyCsv(env, u);
            && (PackageCsv in u.files ==> Efi(ShimDir, v, Csv) in g.files && g.files[Efi(ShimDir, v, Csv)] == u.files[PackageCsv])
            && (PackageCsvArm in u.files ==>
                  Efi(ShimDir, v, CsvArm) in g.files && g.files[Efi(ShimDir, v, CsvArm)] == u.files[PackageCsvArm])
  {
  }

  lemma PackagedCsv(env: Env, fs: FS, p: Path)
    requires p.PackageCsv? || p.PackageCsvArm?
    ensures SameFile(CopyEfi(env, fs), fs, p)
  {
    var v := env.shim.GetOr("0");
    var m := Mkdir(fs, {Efi(ShimDir, v, BootDir), Efi(ShimDir, v, VendorDir), Updates("")});
    X64Leaves(v, m, p);
    ArmLeaves(v, CopyX64(v, m), p);
  }
}
