/** The bootupd postinst and bootc-finalize stage the same EFI files; any order and
    any repetition of the two ends in one layout and loses no binary. */
module EfiStaging {
  import opened Text
  import opened Sorting
  import opened Image
  import opened Finalizer
  import opened FinalizerLaws

  datatype Step = Configured | Ran(arg: string)

  ghost predicate StepTo(env: Env, fs: FS, step: Step, g: FS) {
    match step
    case Configured => Configure(env, fs) == Done(g)
    case Ran(arg) => Completes(env, fs, arg) && Finalize(env, fs, arg) == Done(g)
  }

  /** `states` is a run of completed steps. */
  ghost predicate Trace(env: Env, steps: seq<Step>, states: seq<FS>) {
    && |states| == |steps| + 1
    && forall i :: 0 <= i < |steps| ==> StepTo(env, states[i], steps[i], states[i + 1])
  }

  /** An amd64 image: both signed packages installed, no arm64 binary. */
  predicate Amd64(env: Env, fs: FS) {
    && env.Signed()
    && Package(ShimArm) !in fs.files && Package(MokArm) !in fs.files
  }

  /** The content of a binary wherever it is, the package location first. */
  function Current(env: Env, fs: FS, b: Binary): Option<Content> {
    if Package(b) in fs.files then Some(fs.files[Package(b)])
    else if env.At(b) in fs.files then Some(fs.files[env.At(b)])
    else None
  }

  predicate StagedBinary(b: Binary) {
    b in {Binary.Grub, Binary.Shim, Fallback, MokManager}
  }

  predicate ShimInBoth(env: Env, fs: FS, c: Content) {
    && env.shim.Some?
    && Efi(ShimDir, env.shim.value, Primary(Binary.Shim)) in fs.files
    && fs.files[Efi(ShimDir, env.shim.value, Primary(Binary.Shim))] == c
    && Efi(ShimDir, env.shim.value, VendorShim) in fs.files
    && fs.files[Efi(ShimDir, env.shim.value, VendorShim)] == c
  }

  // ---------- nothing is lost ----------

  lemma AtInjective(env: Env, b: Binary, c: Binary)
    requires StagedBinary(b) && StagedBinary(c)
    ensures env.At(b) == env.At(c) <==> b == c
  {
  }

  lemma MoveConserves(env: Env, fs: FS, c: Binary, b: Binary)
    requires StagedBinary(b) && StagedBinary(c)
    ensures Current(env, Move(fs, Package(c), env.At(c)), b) == Current(env, fs, b)
  {
    AtInjective(env, b, c);
    if b != c {
      MoveFrame(fs, Package(c), env.At(c), Package(b));
      MoveFrame(fs, Package(c), env.At(c), env.At(b));
    }
  }

  /** A copy that lands neither on a package path nor on a staged path. */
  lemma CopyAside(env: Env, fs: FS, src: Path, dst: Path, b: Binary)
    requires StagedBinary(b) && dst != Package(b) && dst != env.At(b)
    ensures Current(env, Copy(fs, src, dst), b) == Current(env, fs, b)
  {
  }

  lemma StageConserves(env: Env, fs: FS, b: Binary)
    requires env.Signed() && StagedBinary(b)
    ensures Current(env, Stage(env, fs), b) == Current(env, fs, b)
  {
    var m := Mkdir(fs, StageDirs(env));
    var x := Move(m, Package(Binary.Grub), env.At(Binary.Grub));
    MoveConserves(env, m, Binary.Grub, b);
    var y := Move(x, Package(Binary.Shim), env.At(Binary.Shim));
    MoveConserves(env, x, Binary.Shim, b);
    CopyAside(env, y, env.At(Binary.Shim), Efi(ShimDir, env.Shim(), VendorShim), b);
    var z := StageShim(env, x);
    var w := Move(z, Package(Fallback), env.At(Fallback));
    MoveConserves(env, z, Fallback, b);
    MoveConserves(env, w, MokManager, b);
  }

  /** Copying a packaged binary to its staged path. */
  lemma CopyStaged(env: Env, fs: FS, c: Binary, b: Binary)
    requires StagedBinary(b) && StagedBinary(c)
    ensures Current(env, Copy(fs, Package(c), env.At(c)), b) == Current(env, fs, b)
  {
    AtInjective(env, b, c);
    if b != c {
      CopyAside(env, fs, Package(c), env.At(c), b);
    }
  }

  lemma CopyX64Conserves(env: Env, fs: FS, b: Binary)
    requires StagedBinary(b)
    ensures Current(env, CopyX64(env.Shim(), fs), b) == Current(env, fs, b)
  {
    var x := Copy(fs, Package(Binary.Shim), env.At(Binary.Shim));
    CopyStaged(env, fs, Binary.Shim, b);
    CopyAside(env, x, Package(Binary.Shim), Efi(ShimDir, env.Shim(), VendorShim), b);
    CopyStaged(env, Copy(x, Package(Binary.Shim), Efi(ShimDir, env.Shim(), VendorShim)), MokManager, b);
  }

  lemma CopyArmConserves(env: Env, v: string, fs: FS, b: Binary)
    requires StagedBinary(b)
    ensures Current(env, CopyArm(v, fs), b) == Current(env, fs, b)
  {
    var s, m := Package(ShimArm), Package(MokArm);
    var x := Copy(fs, s, Efi(ShimDir, v, Primary(ShimArm)));
    CopyAside(env, fs, s, Efi(ShimDir, v, Primary(ShimArm)), b);
    CopyAside(env, x, s, Efi(ShimDir, v, VendorShimArm), b);
    CopyAside(env, Copy(x, s, Efi(ShimDir, v, VendorShimArm)), m, Efi(ShimDir, v, Primary(MokArm)), b);
  }

  lemma CopyConserves(env: Env, fs: FS, b: Binary)
    requires env.Signed() && StagedBinary(b)
    ensures Current(env, CopyEfi(env, fs), b) == Current(env, fs, b)
  {
    var v := env.Shim();
    var m := Mkdir(fs, {Efi(ShimDir, v, BootDir), Efi(ShimDir, v, VendorDir), Updates("")});
    CopyX64Conserves(env, m, b);
    CopyArmConserves(env, v, CopyX64(v, m), b);
  }

  lemma CsvFrame(env: Env, fs: FS, p: Path)
    requires !(p.Efi? && p.slot in {Csv, CsvArm})
    ensures AgreeAt(CopyCsv(env, fs), fs, p)
  {
    var v := env.shim.GetOr("0");
    var x := Copy(fs, PackageCsv, Efi(ShimDir, v, Csv));
    assert AgreeAt(x, fs, p);
  }

  lemma ConfigureFrame(env: Env, fs: FS, g: FS, p: Path)
    requires Configure(env, fs) == Done(g)
    requires !p.Updates? && !(p.Efi? && p.slot in {Csv, CsvArm})
    ensures AgreeAt(g, CopyEfi(env, fs), p)
  {
    var h := CopyEfi(env, fs);
    var d := env.setDefault(env.bootupctl.value(EfiTree(h)).value).value;
    UpdatesFrame(h, d, p);
    CsvFrame(env, PutUpdates(h, d), p);
  }

  lemma CurrentAgrees(env: Env, x: FS, y: FS, b: Binary)
    requires AgreeAt(x, y, Package(b)) && AgreeAt(x, y, env.At(b))
    ensures Current(env, x, b) == Current(env, y, b)
  {
  }

  lemma RunConserves(env: Env, fs: FS, k: string, b: Binary, g: FS)
    requires env.Signed() && StagedBinary(b)
    requires Relocate(fs, k).Moved? && FinalizeKernel(env, fs, k) == Done(g)
    ensures Current(env, g, b) == Current(env, fs, b)
  {
    var d := RunShape(env, fs, k, g);
    var s := Stage(env, d);
    CurrentAgrees(env, d, fs, b);
    StageConserves(env, d, b);
    PublishedAt(env, s, g, Package(b));
    PublishedAt(env, s, g, env.At(b));
    CurrentAgrees(env, g, s, b);
  }

  lemma StepConserves(env: Env, fs: FS, step: Step, b: Binary, g: FS)
    requires env.Signed() && StagedBinary(b) && StepTo(env, fs, step, g)
    ensures Current(env, g, b) == Current(env, fs, b)
  {
    match step {
      case Configured =>
        CopyConserves(env, fs, b);
        ConfigureFrame(env, fs, g, Package(b));
        ConfigureFrame(env, fs, g, env.At(b));
        CurrentAgrees(env, g, CopyEfi(env, fs), b);
      case Ran(arg) =>
        RunConserves(env, fs, Kernel(env.le, fs, arg), b, g);
    }
  }

  lemma {:induction false} CurrentConserved(env: Env, steps: seq<Step>, states: seq<FS>, b: Binary)
    requires Trace(env, steps, states) && env.Signed() && StagedBinary(b)
    ensures Current(env, states[|steps|], b) == Current(env, states[0], b)
  {
    if steps == [] {
    } else {
      StepConserves(env, states[0], steps[0], b, states[1]);
      CurrentConserved(env, steps[1..], states[1..], b);
    }
  }

  /** The content of a binary, packaged at src or staged at dst. */
  function Kept(fs: FS, src: Path, dst: Path): Option<Content> {
    if src in fs.files then Some(fs.files[src])
    else if dst in fs.files then Some(fs.files[dst])
    else None
  }

  /** Through any sequence of steps GRUB is in its package or in the grub2 component, and
      the shim, the fallback and MokManager are in theirs or in the shim component, each
      with the content it had. */
  lemma BinariesConserved(env: Env, steps: seq<Step>, states: seq<FS>)
    requires Trace(env, steps, states) && env.shim.GetOr("") != "" && env.grub.GetOr("") != ""
    ensures var first, last := states[0], states[|steps|];
            var grub, shim := Efi(Grub2Dir, env.grub.value, Primary(Binary.Grub)), env.shim.value;
            && Kept(last, Package(Binary.Grub), grub) == Kept(first, Package(Binary.Grub), grub)
            && forall b | b in {Binary.Shim, Fallback, MokManager} ::
                 Kept(last, Package(b), Efi(ShimDir, shim, Primary(b))) == Kept(first, Package(b), Efi(ShimDir, shim, Primary(b)))
  {
    CurrentConserved(env, steps, states, Binary.Grub);
    forall b | b in {Binary.Shim, Fallback, MokManager}
      ensures Kept(states[|steps|], Package(b), Efi(ShimDir, env.shim.value, Primary(b)))
              == Kept(states[0], Package(b), Efi(ShimDir, env.shim.value, Primary(b)))
    {
      CurrentConserved(env, steps, states, b);
    }
  }

  // ---------- the shim is in both places ----------

  lemma StepPlacesShim(env: Env, fs: FS, step: Step, c: Content, g: FS)
    requires env.Signed() && StepTo(env, fs, step, g)
    requires Current(env, fs, Binary.Shim) == Some(c) && (Package(Binary.Shim) in fs.files || ShimInBoth(env, fs, c))
    ensures ShimInBoth(env, g, c)
  {
    match step {
      case Configured =>
        CopyPlacesShim(env, fs, c);
        ConfigureFrame(env, fs, g, env.At(Binary.Shim));
        ConfigureFrame(env, fs, g, Efi(ShimDir, env.Shim(), VendorShim));
      case Ran(arg) =>
        RunPlacesShim(env, fs, Kernel(env.le, fs, arg), c, g);
    }
  }

  lemma RunPlacesShim(env: Env, fs: FS, k: string, c: Content, g: FS)
    requires env.Signed() && Current(env, fs, Binary.Shim) == Some(c)
    requires Relocate(fs, k).Moved? && FinalizeKernel(env, fs, k) == Done(g)
    ensures ShimInBoth(env, g, c)
  {
    var d := RunShape(env, fs, k, g);
    var s := Stage(env, d);
    CurrentAgrees(env, d, fs, Binary.Shim);
    StagePlacesShim(env, d, c);
    PublishFrame(env, s, g);
    assert AgreeAt(g, s, env.At(Binary.Shim)) && AgreeAt(g, s, Efi(ShimDir, env.Shim(), VendorShim));
  }

  lemma StagePlacesShim(env: Env, fs: FS, c: Content)
    requires env.Signed() && Current(env, fs, Binary.Shim) == Some(c)
    ensures ShimInBoth(env, Stage(env, fs), c)
  {
  }

  lemma CopyPlacesShim(env: Env, fs: FS, c: Content)
    requires env.Signed() && Current(env, fs, Binary.Shim) == Some(c)
    requires Package(Binary.Shim) in fs.files || ShimInBoth(env, fs, c)
    ensures ShimInBoth(env, CopyEfi(env, fs), c)
  {
  }

  /** After one or more steps from a freshly installed shim package, its content is at
      both EFI/BOOT/BOOTX64.EFI and EFI/debian/shimx64.efi. */
  lemma {:induction false} ShimStaged(env: Env, steps: seq<Step>, states: seq<FS>, c: Content)
    requires Trace(env, steps, states) && env.Signed() && steps != []
    requires if Package(Binary.Shim) in states[0].files
             then states[0].files[Package(Binary.Shim)] == c
             else ShimInBoth(env, states[0], c)
    ensures ShimInBoth(env, states[|steps|], c)
  {
    StepPlacesShim(env, states[0], steps[0], c, states[1]);
    if |steps| <= 1 {
    } else {
      StepConserves(env, states[0], steps[0], Binary.Shim, states[1]);
      ShimStaged(env, steps[1..], states[1..], c);
    }
  }

  // ---------- any order ends in one layout ----------

  /** Everything but the bootupd metadata and the boot entry files, which the two
      scripts write with different text. */
  predicate InCore(p: Path) {
    !p.Updates? && !(p.Efi? && p.slot in {Csv, CsvArm})
  }

  ghost predicate CoreAgree(a: FS, b: FS) {
    forall p :: InCore(p) ==> AgreeAt(a, b, p)
  }

  /** The state a run stages from, when it gets that far. */
  function Prepared(fs: FS, k: string, img: Content): FS
    requires Relocate(fs, k).Moved?
  {
    DropStale(Put(PurgeBoot(Relocate(fs, k).fs), Module(k, Initramfs), img), k)
  }

  /** A run for k gets past dracut, which yields img. */
  predicate Ready(env: Env, fs: FS, k: string, img: Content) {
    Relocate(fs, k).Moved? && env.dracut(k, DracutView(PurgeBoot(Relocate(fs, k).fs), k)) == Some(img)
  }

  lemma MoveCongruent(a: FS, b: FS, src: Path, dst: Path)
    requires CoreAgree(a, b) && InCore(src) && InCore(dst)
    ensures CoreAgree(Move(a, src, dst), Move(b, src, dst))
    ensures CoreAgree(Copy(a, src, dst), Copy(b, src, dst))
  {
    assert AgreeAt(a, b, src);
    forall p | InCore(p)
      ensures AgreeAt(Move(a, src, dst), Move(b, src, dst), p) && AgreeAt(Copy(a, src, dst), Copy(b, src, dst), p)
    {
      assert AgreeAt(a, b, p);
    }
  }

  lemma StageCongruent(env: Env, a: FS, b: FS)
    requires CoreAgree(a, b)
    ensures CoreAgree(Stage(env, a), Stage(env, b))
  {
    if env.Signed() {
      var a1, b1 := Mkdir(a, StageDirs(env)), Mkdir(b, StageDirs(env));
      assert CoreAgree(a1, b1) by {
        forall p | InCore(p) ensures AgreeAt(a1, b1, p) {
          assert AgreeAt(a, b, p);
        }
      }
      MoveCongruent(a1, b1, Package(Binary.Grub), env.At(Binary.Grub));
      var a2, b2 := Move(a1, Package(Binary.Grub), env.At(Binary.Grub)), Move(b1, Package(Binary.Grub), env.At(Binary.Grub));
      MoveCongruent(a2, b2, Package(Binary.Shim), env.At(Binary.Shim));
      var a3, b3 := Move(a2, Package(Binary.Shim), env.At(Binary.Shim)), Move(b2, Package(Binary.Shim), env.At(Binary.Shim));
      MoveCongruent(a3, b3, env.At(Binary.Shim), Efi(ShimDir, env.Shim(), VendorShim));
      var a4, b4 := StageShim(env, a2), StageShim(env, b2);
      MoveCongruent(a4, b4, Package(Fallback), env.At(Fallback));
      MoveCongruent(Move(a4, Package(Fallback), env.At(Fallback)), Move(b4, Package(Fallback), env.At(Fallback)),
                    Package(MokManager), env.At(MokManager));
    }
  }

  predicate InSystem(p: Path) {
    p.Boot? || p.Module? || p.Elsewhere?
  }

  ghost predicate SameSystem(a: FS, b: FS) {
    forall p :: InSystem(p) ==> AgreeAt(a, b, p)
  }

  /** What a run relocates, rebuilds and drops depends on the kernels and the files no
      script writes, not on the staged EFI tree. */
  lemma PreparedLocal(a: FS, b: FS, k: string, img: Content)
    requires SameSystem(a, b) && Relocate(a, k).Moved?
    ensures Relocate(b, k).Moved? && SameSystem(Prepared(a, k, img), Prepared(b, k, img))
    ensures DracutView(PurgeBoot(Relocate(a, k).fs), k) == DracutView(PurgeBoot(Relocate(b, k).fs), k)
  {
    assert AgreeAt(a, b, Boot(["vmlinuz-" + k])) && AgreeAt(a, b, Module(k, Top)) && AgreeAt(a, b, Module(k, Vmlinuz));
    var x, y := Relocate(a, k).fs, Relocate(b, k).fs;
    assert SameSystem(x, y) by {
      forall p | InSystem(p) ensures AgreeAt(x, y, p) {
        assert AgreeAt(a, b, p);
      }
    }
    forall p ensures AgreeAt(DracutView(PurgeBoot(x), k), DracutView(PurgeBoot(y), k), p) {
      if DracutReads(k, p) {
        assert AgreeAt(x, y, p);
      }
    }
    Extensional(DracutView(PurgeBoot(x), k), DracutView(PurgeBoot(y), k));
    CleanupLocal(x, y, k, img);
  }

  lemma CleanupLocal(x: FS, y: FS, k: string, img: Content)
    requires SameSystem(x, y)
    ensures SameSystem(DropStale(Put(PurgeBoot(x), Module(k, Initramfs), img), k),
                       DropStale(Put(PurgeBoot(y), Module(k, Initramfs), img), k))
  {
    var u, v := Put(PurgeBoot(x), Module(k, Initramfs), img), Put(PurgeBoot(y), Module(k, Initramfs), img);
    forall p | InSystem(p) ensures AgreeAt(u, v, p) {
      assert AgreeAt(x, y, p);
    }
    forall j ensures Stale(u, k, j) <==> Stale(v, k, j) {
      assert AgreeAt(u, v, Module(j, Top)) && AgreeAt(u, v, Module(j, KernelTree)) && AgreeAt(u, v, Module(j, ModulesDep));
    }
    forall p | InSystem(p) ensures AgreeAt(DropStale(u, k), DropStale(v, k), p) {
      assert AgreeAt(u, v, p);
    }
  }

  lemma PreparedFrame(fs: FS, k: string, img: Content, p: Path)
    requires Relocate(fs, k).Moved? && !p.Boot? && !p.Module?
    ensures AgreeAt(Prepared(fs, k, img), fs, p)
  {
    RebuildFrame(Relocate(fs, k).fs, k, img, p);
  }

  lemma PreparedCongruent(a: FS, b: FS, k: string, img: Content)
    requires CoreAgree(a, b) && Relocate(a, k).Moved?
    ensures Relocate(b, k).Moved? && CoreAgree(Prepared(a, k, img), Prepared(b, k, img))
    ensures DracutView(PurgeBoot(Relocate(a, k).fs), k) == DracutView(PurgeBoot(Relocate(b, k).fs), k)
  {
    PreparedLocal(a, b, k, img);
    forall p | InCore(p) ensures AgreeAt(Prepared(a, k, img), Prepared(b, k, img), p) {
      if !InSystem(p) {
        PreparedFrame(a, k, img, p);
        PreparedFrame(b, k, img, p);
        assert AgreeAt(a, b, p);
      }
    }
  }

  /** Agreement on the core except for the files at the given paths. */
  ghost predicate AgreeBut(a: FS, b: FS, open: set<Path>) {
    && (forall p :: InCore(p) && p !in open ==> SameFile(a, b, p))
    && (forall p :: InCore(p) ==> (p in a.dirs <==> p in b.dirs))
  }

  /** Overwriting a path from an agreed source closes it. */
  lemma MoveCloses(a: FS, b: FS, src: Path, dst: Path, open: set<Path>)
    requires AgreeBut(a, b, open) && InCore(src) && src !in open
    ensures AgreeBut(Move(a, src, dst), Move(b, src, dst), if src in b.files then open - {dst} else open)
    ensures AgreeBut(Copy(a, src, dst), Copy(b, src, dst), if src in b.files then open - {dst} else open)
  {
    assert SameFile(a, b, src);
    forall p | InCore(p) && (p !in open || (src in b.files && p == dst))
      ensures SameFile(Move(a, src, dst), Move(b, src, dst), p) && SameFile(Copy(a, src, dst), Copy(b, src, dst), p)
    {
      if p !in open {
        assert SameFile(a, b, p);
      }
    }
  }

  /** The staged paths the bootupd postinst may have written. */
  function Copied(env: Env, shim: bool, mok: bool): set<Path> {
    (if shim then {env.At(Binary.Shim), Efi(ShimDir, env.Shim(), VendorShim)} else {})
    + (if mok then {env.At(MokManager)} else {})
  }

  lemma CopyFrame(env: Env, fs: FS)
    requires Amd64(env, fs)
    ensures AgreeBut(Mkdir(CopyEfi(env, fs), StageDirs(env)), Mkdir(fs, StageDirs(env)),
                     Copied(env, Package(Binary.Shim) in fs.files, Package(MokManager) in fs.files))
    ensures Amd64(env, CopyEfi(env, fs))
  {
  }

  lemma ShimCloses(env: Env, a: FS, b: FS, mok: bool)
    requires AgreeBut(a, b, Copied(env, Package(Binary.Shim) in b.files, mok))
    ensures AgreeBut(StageShim(env, a), StageShim(env, b), Copied(env, false, mok))
    ensures Package(MokManager) in StageShim(env, b).files <==> Package(MokManager) in b.files
  {
    var shim, vendor := env.At(Binary.Shim), Efi(ShimDir, env.Shim(), VendorShim);
    var o := Copied(env, Package(Binary.Shim) in b.files, mok);
    MoveCloses(a, b, Package(Binary.Shim), shim, o);
    var a2, b2 := Move(a, Package(Binary.Shim), shim), Move(b, Package(Binary.Shim), shim);
    var o2 := o - {shim};
    assert AgreeBut(a2, b2, o2);
    MoveCloses(a2, b2, shim, vendor, o2);
    assert forall p :: p in o2 && (Package(Binary.Shim) in b.files ==> p != vendor) ==> p in Copied(env, false, mok);
  }

  /** Whatever the bootupd postinst copied, the next staging produces all the same. */
  lemma StageAbsorbs(env: Env, fs: FS)
    requires Amd64(env, fs)
    ensures CoreAgree(Stage(env, CopyEfi(env, fs)), Stage(env, fs))
  {
    var shim, mok := Package(Binary.Shim) in fs.files, Package(MokManager) in fs.files;
    CopyFrame(env, fs);
    var a0, b0 := Mkdir(CopyEfi(env, fs), StageDirs(env)), Mkdir(fs, StageDirs(env));
    var o := Copied(env, shim, mok);
    MoveCloses(a0, b0, Package(Binary.Grub), env.At(Binary.Grub), o);
    var a1, b1 := Move(a0, Package(Binary.Grub), env.At(Binary.Grub)), Move(b0, Package(Binary.Grub), env.At(Binary.Grub));
    assert AgreeBut(a1, b1, o);
    ShimCloses(env, a1, b1, mok);
    LastCloses(env, StageShim(env, a1), StageShim(env, b1), mok);
    assert Stage(env, fs) == LastMoves(env, StageShim(env, b1));
    assert Stage(env, CopyEfi(env, fs)) == LastMoves(env, StageShim(env, a1));
  }

  function LastMoves(env: Env, fs: FS): FS {
    Move(Move(fs, Package(Fallback), env.At(Fallback)), Package(MokManager), env.At(MokManager))
  }

  lemma LastCloses(env: Env, a: FS, b: FS, mok: bool)
    requires AgreeBut(a, b, Copied(env, false, mok)) && (mok ==> Package(MokManager) in b.files)
    ensures CoreAgree(LastMoves(env, a), LastMoves(env, b))
  {
    var o := Copied(env, false, mok);
    MoveCloses(a, b, Package(Fallback), env.At(Fallback), o);
    var a4, b4 := Move(a, Package(Fallback), env.At(Fallback)), Move(b, Package(Fallback), env.At(Fallback));
    assert AgreeBut(a4, b4, o);
    MoveCloses(a4, b4, Package(MokManager), env.At(MokManager), o);
    var a5, b5 := LastMoves(env, a), LastMoves(env, b);
    assert AgreeBut(a5, b5, {});
    forall p | InCore(p) ensures AgreeAt(a5, b5, p) {
      assert SameFile(a5, b5, p);
    }
  }

  lemma CopyElsewhere(env: Env, fs: FS, p: Path)
    requires InSystem(p)
    ensures AgreeAt(CopyEfi(env, fs), fs, p)
  {
  }

  ghost predicate SameEfi(a: FS, b: FS) {
    forall p: Path :: p.Efi? || p.Package? || p.PackageCsv? || p.PackageCsvArm? ==> AgreeAt(a, b, p)
  }

  lemma CopyStep(a: FS, b: FS, src: Path, dst: Path)
    requires SameEfi(a, b) && src.Package?
    ensures SameEfi(Copy(a, src, dst), Copy(b, src, dst))
  {
    assert AgreeAt(a, b, src);
    forall p: Path | p.Efi? || p.Package? || p.PackageCsv? || p.PackageCsvArm?
      ensures AgreeAt(Copy(a, src, dst), Copy(b, src, dst), p)
    {
      assert AgreeAt(a, b, p);
    }
  }

  lemma CopyLocal(v: string, a: FS, b: FS)
    requires SameEfi(a, b)
    ensures SameEfi(CopyX64(v, a), CopyX64(v, b)) && SameEfi(CopyArm(v, a), CopyArm(v, b))
  {
    var s, m := Package(Binary.Shim), Package(MokManager);
    var p, q := Efi(ShimDir, v, Primary(Binary.Shim)), Efi(ShimDir, v, VendorShim);
    CopyStep(a, b, s, p);
    CopyStep(Copy(a, s, p), Copy(b, s, p), s, q);
    CopyStep(Copy(Copy(a, s, p), s, q), Copy(Copy(b, s, p), s, q), m, Efi(ShimDir, v, Primary(MokManager)));
    var s', m' := Package(ShimArm), Package(MokArm);
    var p', q' := Efi(ShimDir, v, Primary(ShimArm)), Efi(ShimDir, v, VendorShimArm);
    CopyStep(a, b, s', p');
    CopyStep(Copy(a, s', p'), Copy(b, s', p'), s', q');
    CopyStep(Copy(Copy(a, s', p'), s', q'), Copy(Copy(b, s', p'), s', q'), m', Efi(ShimDir, v, Primary(MokArm)));
  }

  lemma CopyEfiLocal(env: Env, a: FS, b: FS)
    requires SameEfi(a, b)
    ensures SameEfi(CopyEfi(env, a), CopyEfi(env, b))
  {
    var v := env.shim.GetOr("0");
    var dirs := {Efi(ShimDir, v, BootDir), Efi(ShimDir, v, VendorDir), Updates("")};
    assert SameEfi(Mkdir(a, dirs), Mkdir(b, dirs)) by {
      forall p: Path | p.Efi? || p.Package? || p.PackageCsv? || p.PackageCsvArm?
        ensures AgreeAt(Mkdir(a, dirs), Mkdir(b, dirs), p)
      {
        assert AgreeAt(a, b, p);
      }
    }
    CopyLocal(v, Mkdir(a, dirs), Mkdir(b, dirs));
    CopyLocal(v, CopyX64(v, Mkdir(a, dirs)), CopyX64(v, Mkdir(b, dirs)));
  }

  /** Copying EFI files and preparing a run do not disturb each other. */
  lemma PreparedCopy(env: Env, fs: FS, k: string, img: Content)
    requires Relocate(fs, k).Moved?
    ensures Relocate(CopyEfi(env, fs), k).Moved?
    ensures DracutView(PurgeBoot(Relocate(CopyEfi(env, fs), k).fs), k) == DracutView(PurgeBoot(Relocate(fs, k).fs), k)
    ensures CoreAgree(Prepared(CopyEfi(env, fs), k, img), CopyEfi(env, Prepared(fs, k, img)))
  {
    var c, n := CopyEfi(env, fs), Prepared(fs, k, img);
    assert SameSystem(fs, c) by {
      forall p | InSystem(p) ensures AgreeAt(fs, c, p) {
        CopyElsewhere(env, fs, p);
      }
    }
    PreparedLocal(fs, c, k, img);
    assert SameEfi(n, fs) by {
      forall p: Path | p.Efi? || p.Package? || p.PackageCsv? || p.PackageCsvArm? ensures AgreeAt(n, fs, p) {
        PreparedFrame(fs, k, img, p);
      }
    }
    CopyEfiLocal(env, n, fs);
    forall p | InCore(p) ensures AgreeAt(Prepared(c, k, img), CopyEfi(env, n), p) {
      if InSystem(p) {
        CopyElsewhere(env, n, p);
        assert AgreeAt(n, Prepared(c, k, img), p);
      } else {
        PreparedFrame(c, k, img, p);
        assert AgreeAt(CopyEfi(env, n), c, p);
      }
    }
  }

  // ---------- confluence ----------

  /** The bootupd postinst does not show in what a run rebuilds. */
  lemma ConfigureThenRebuild(env: Env, fs: FS, k: string, img: Content, g: FS)
    requires Amd64(env, fs) && Ready(env, fs, k, img) && Configure(env, fs) == Done(g)
    ensures Amd64(env, g) && Ready(env, g, k, img)
    ensures CoreAgree(Stage(env, Prepared(g, k, img)), Stage(env, Prepared(fs, k, img)))
  {
    var c, n := CopyEfi(env, fs), Prepared(fs, k, img);
    ConfiguredCore(env, fs, g);
    ConfigureKeepsAmd64(env, fs, g);
    PreparedCopy(env, fs, k, img);
    PreparedCongruent(c, g, k, img);
    PreparedKeepsAmd64(env, fs, k, img);
    StageAbsorbs(env, n);
    var pg, pc, cn := Prepared(g, k, img), Prepared(c, k, img), CopyEfi(env, n);
    Symmetric(pc, pg);
    Chain(pg, pc, cn);
    StageCongruent(env, pg, cn);
    Chain(Stage(env, pg), Stage(env, cn), Stage(env, n));
  }

  lemma ConfiguredCore(env: Env, fs: FS, g: FS)
    requires Configure(env, fs) == Done(g)
    ensures CoreAgree(CopyEfi(env, fs), g) && CoreAgree(g, CopyEfi(env, fs))
  {
    var c := CopyEfi(env, fs);
    forall p | InCore(p) ensures AgreeAt(g, c, p) && AgreeAt(c, g, p) {
      ConfigureFrame(env, fs, g, p);
    }
  }

  lemma ConfigureKeepsAmd64(env: Env, fs: FS, g: FS)
    requires Amd64(env, fs) && Configure(env, fs) == Done(g)
    ensures Amd64(env, g)
  {
    CopyFrame(env, fs);
    ConfigureFrame(env, fs, g, Package(ShimArm));
    ConfigureFrame(env, fs, g, Package(MokArm));
  }

  lemma PreparedKeepsAmd64(env: Env, fs: FS, k: string, img: Content)
    requires Amd64(env, fs) && Relocate(fs, k).Moved?
    ensures Amd64(env, Prepared(fs, k, img))
  {
    PreparedFrame(fs, k, img, Package(ShimArm));
    PreparedFrame(fs, k, img, Package(MokArm));
  }

  lemma Symmetric(a: FS, b: FS)
    requires CoreAgree(a, b)
    ensures CoreAgree(b, a)
  {
    forall p | InCore(p) ensures AgreeAt(b, a, p) {
      assert AgreeAt(a, b, p);
    }
  }

  lemma RunReaches(env: Env, fs: FS, k: string, img: Content, g: FS)
    requires Amd64(env, fs) && Ready(env, fs, k, img) && FinalizeKernel(env, fs, k) == Done(g)
    ensures Amd64(env, g) && Ready(env, g, k, img)
    ensures CoreAgree(g, Stage(env, Prepared(fs, k, img))) && Stage(env, Prepared(g, k, img)) == g
  {
    RunIsFixed(env, fs, k, img, g);
    RunKeepsAmd64(env, fs, k, img, g);
    PublishFrame(env, Stage(env, Prepared(fs, k, img)), g);
  }

  lemma RunIsFixed(env: Env, fs: FS, k: string, img: Content, g: FS)
    requires Ready(env, fs, k, img) && FinalizeKernel(env, fs, k) == Done(g)
    ensures Ready(env, g, k, img) && Stage(env, Prepared(g, k, img)) == g
  {
    var m := Relocate(fs, k).fs;
    RebuildSettles(env, m, k, img);
    PublishKeepsSettled(env, Rebuild(env, m, k, img), k, img, g);
    ViewKept(env, m, k, img, g);
    SettledIsFixed(env, g, k, img);
    assert Purged(Boot(["vmlinuz-" + k]));
  }

  lemma RunKeepsAmd64(env: Env, fs: FS, k: string, img: Content, g: FS)
    requires Amd64(env, fs) && Ready(env, fs, k, img) && FinalizeKernel(env, fs, k) == Done(g)
    ensures Amd64(env, g)
  {
    var d := Prepared(fs, k, img);
    forall p | p in {Package(ShimArm), Package(MokArm)} ensures AgreeAt(g, fs, p) {
      PublishedAt(env, Stage(env, d), g, p);
      StageKeepsArm(env, d);
      PreparedFrame(fs, k, img, p);
    }
    assert AgreeAt(g, fs, Package(ShimArm)) && AgreeAt(g, fs, Package(MokArm));
  }

  lemma StageKeepsArm(env: Env, fs: FS)
    ensures AgreeAt(Stage(env, fs), fs, Package(ShimArm)) && AgreeAt(Stage(env, fs), fs, Package(MokArm))
  {
    if env.Signed() {
      var a := Move(Mkdir(fs, StageDirs(env)), Package(Binary.Grub), env.At(Binary.Grub));
      var b := StageShim(env, a);
      forall p | p in {Package(ShimArm), Package(MokArm)} ensures AgreeAt(Stage(env, fs), fs, p) {
        assert AgreeAt(a, fs, p) && AgreeAt(b, a, p) && AgreeAt(LastMoves(env, b), b, p);
      }
    }
  }

  lemma ConfigureKeepsKernel(env: Env, fs: FS, g: FS)
    requires TotalOrder(env.le) && Configure(env, fs) == Done(g)
    ensures Kernel(env.le, g, "") == Kernel(env.le, fs, "")
  {
    forall j ensures HoldsTree(fs, j) <==> HoldsTree(g, j) {
      ConfigureFrame(env, fs, g, Module(j, KernelTree));
      ConfigureFrame(env, fs, g, Module(j, ModulesDep));
      CopyElsewhere(env, fs, Module(j, KernelTree));
      CopyElsewhere(env, fs, Module(j, ModulesDep));
    }
    KernelUnique(env.le, fs, g, "");
  }

  /** What holds along a trace: the same kernel is selected, and rebuilding from any
      state gives the same core; once a run has happened that core is the state's own. */
  ghost predicate OnCourse(env: Env, start: FS, k: string, img: Content, fs: FS, ran: bool) {
    && Kernel(env.le, fs, "") == k && Amd64(env, fs)
    && Ready(env, start, k, img) && Ready(env, fs, k, img)
    && CoreAgree(Stage(env, Prepared(fs, k, img)), Stage(env, Prepared(start, k, img)))
    && (ran ==> CoreAgree(fs, Stage(env, Prepared(start, k, img))))
  }

  lemma StepOnCourse(env: Env, start: FS, k: string, img: Content, fs: FS, ran: bool, step: Step, g: FS)
    requires TotalOrder(env.le) && k != "" && OnCourse(env, start, k, img, fs, ran)
    requires StepTo(env, fs, step, g) && (step.Ran? ==> step.arg in {"", k})
    ensures OnCourse(env, start, k, img, g, ran || step.Ran?)
  {
    var goal := Stage(env, Prepared(start, k, img));
    match step {
      case Configured =>
        ConfigureThenRebuild(env, fs, k, img, g);
        ConfigureKeepsKernel(env, fs, g);
        Chain(Stage(env, Prepared(g, k, img)), Stage(env, Prepared(fs, k, img)), goal);
        if ran {
          SettledCopies(env, fs, k, img, start);
          forall p | InCore(p) ensures AgreeAt(g, CopyEfi(env, fs), p) {
            ConfigureFrame(env, fs, g, p);
          }
          Chain(g, CopyEfi(env, fs), fs);
          Chain(g, fs, goal);
        }
      case Ran(arg) =>
        SameKernel(env, fs, arg, g);
        SameKernel(env, fs, "", g);
        RunReaches(env, fs, k, img, g);
        Chain(g, Stage(env, Prepared(fs, k, img)), goal);
    }
  }

  lemma Chain(a: FS, b: FS, c: FS)
    requires CoreAgree(a, b) && CoreAgree(b, c)
    ensures CoreAgree(a, c)
  {
    forall p | InCore(p) ensures AgreeAt(a, c, p) {
      assert AgreeAt(a, b, p) && AgreeAt(b, c, p);
    }
  }

  /** On a state whose sources are consumed the bootupd postinst copies nothing. */
  lemma SettledCopies(env: Env, fs: FS, k: string, img: Content, start: FS)
    requires Ready(env, start, k, img) && Amd64(env, fs)
    requires CoreAgree(fs, Stage(env, Prepared(start, k, img)))
    ensures CoreAgree(CopyEfi(env, fs), fs)
  {
    var d := Prepared(start, k, img);
    var s := Stage(env, d);
    StageConsumes(env, d);
    assert AgreeAt(fs, s, Package(Binary.Shim)) && AgreeAt(fs, s, Package(MokManager));
    assert AgreeAt(fs, s, Efi(ShimDir, env.Shim(), BootDir)) && AgreeAt(fs, s, Efi(ShimDir, env.Shim(), VendorDir));
  }

  predicate SomeRan(steps: seq<Step>) {
    steps != [] && (steps[0].Ran? || SomeRan(steps[1..]))
  }

  /** The states are linked by the steps. */
  ghost predicate Linked(rel: (FS, Step, FS) -> bool, steps: seq<Step>, states: seq<FS>) {
    && |states| == |steps| + 1
    && forall i :: 0 <= i < |steps| ==> rel(states[i], steps[i], states[i + 1])
  }

  ghost predicate Preserved(rel: (FS, Step, FS) -> bool, inv: (FS, bool) -> bool) {
    forall fs, ran, step, g :: inv(fs, ran) && rel(fs, step, g) ==> inv(g, ran || step.Ran?)
  }

  /** Induction over linked states for a property of the state and of whether a run
      happened. */
  lemma {:induction false} AlongSteps(rel: (FS, Step, FS) -> bool, inv: (FS, bool) -> bool, steps: seq<Step>, states: seq<FS>, ran: bool)
    requires Preserved(rel, inv) && Linked(rel, steps, states) && inv(states[0], ran)
    ensures inv(states[|steps|], ran || SomeRan(steps))
    decreases |steps|
  {
    if steps == [] {
    } else {
      assert rel(states[0], steps[0], states[1]);
      AlongSteps(rel, inv, steps[1..], states[1..], ran || steps[0].Ran?);
    }
  }

  /** On amd64, any order and any repetition of the bootupd postinst and of runs for the
      newest kernel, with at least one run, ends where a single run from the start ends,
      apart from the bootupd metadata and the boot entry files. */
  lemma Confluent(env: Env, steps: seq<Step>, states: seq<FS>, d: FS)
    requires TotalOrder(env.le) && Trace(env, steps, states) && SomeRan(steps) && Amd64(env, states[0])
    requires forall step :: step in steps && step.Ran? ==> step.arg in {"", Kernel(env.le, states[0], "")}
    requires Completes(env, states[0], "") && Finalize(env, states[0], "") == Done(d)
    ensures CoreAgree(states[|steps|], d)
  {
    var fs, k := states[0], Kernel(env.le, states[0], "");
    var img := env.dracut(k, DracutView(PurgeBoot(Relocate(fs, k).fs), k)).value;
    var inv := (x: FS, ran: bool) => OnCourse(env, fs, k, img, x, ran);
    var rel := (x: FS, step: Step, g: FS) => StepTo(env, x, step, g) && (step.Ran? ==> step.arg in {"", k});
    forall x, ran, step, g | inv(x, ran) && rel(x, step, g) ensures inv(g, ran || step.Ran?) {
      StepOnCourse(env, fs, k, img, x, ran, step, g);
    }
    AlongSteps(rel, inv, steps, states, false);
    RunReaches(env, fs, k, img, d);
    var goal := Stage(env, Prepared(fs, k, img));
    forall p | InCore(p) ensures AgreeAt(goal, d, p) {
      assert AgreeAt(d, goal, p);
    }
    Chain(states[|steps|], goal, d);
  }
}
