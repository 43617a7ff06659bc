/** bootc-finalize, the kernel hook and the bootupd postinst as functions of the
    filesystem, and what every run and every sequence of runs does to it. */
module Finalizer {
  import opened Text
  import opened Image

  /** What the scripts ask of the machine. `dracut` sees the kernel's own module
      directory and the files no script here writes; `bootupctl` sees the staged EFI
      tree, and its set-default-bootloader changes the metadata it generated. `None` is
      an absent package, an absent program or a failing one. */
  datatype Env = Env(
    shim: Option<string>,
    grub: Option<string>,
    dracut: (string, FS) -> Option<Content>,
    bootupctl: Option<FS -> Option<map<string, Content>>>,
    setDefault: map<string, Content> -> Option<map<string, Content>>,
    csv: Option<Content>,
    le: (string, string) -> bool)
  {
    function Shim(): string { shim.GetOr("") }
    function Grub(): string { grub.GetOr("") }

    /** Staging location of a binary under the installed package versions. */
    function At(b: Binary): Path {
      if b.Grub? then Efi(Grub2Dir, Grub(), Primary(b)) else Efi(ShimDir, Shim(), Primary(b))
    }

    predicate Signed() {
      Shim() != "" && Grub() != ""
    }
  }

  datatype Outcome = Done(fs: FS) | Aborted

  // ---------- kernel selection ----------

  ghost predicate IsNewest(le: (string, string) -> bool, fs: FS, k: string) {
    && Visible(k) && HoldsTree(fs, k)
    && forall j :: Visible(j) && HoldsTree(fs, j) ==> le(j, k)
  }

  /** The kernel a run works on; empty when there is none. */
  ghost function Kernel(le: (string, string) -> bool, fs: FS, arg: string): string {
    if arg != "" then arg
    else if exists k :: IsNewest(le, fs, k) then
      var k :| IsNewest(le, fs, k); k
    else ""
  }

  // ---------- one run ----------

  datatype Relocation = Moved(fs: FS) | Absent | Broken

  function Relocate(fs: FS, k: string): Relocation {
    if Boot(["vmlinuz-" + k]) in fs.files then
      if Module(k, Top) in fs.dirs
      then Moved(Move(fs, Boot(["vmlinuz-" + k]), Module(k, Vmlinuz)))
      else Broken
    else if Module(k, Vmlinuz) !in fs.files then Absent
    else Moved(fs)
  }

  function StageDirs(env: Env): set<Path> {
    {Efi(ShimDir, env.Shim(), BootDir), Efi(ShimDir, env.Shim(), VendorDir), Efi(Grub2Dir, env.Grub(), VendorDir)}
  }

  function StageShim(env: Env, fs: FS): FS {
    var a := Move(fs, Package(Shim), env.At(Shim));
    Copy(a, env.At(Shim), Efi(ShimDir, env.Shim(), VendorShim))
  }

  function Stage(env: Env, fs: FS): FS {
    if !env.Signed() then fs
    else
      var a := Move(Mkdir(fs, StageDirs(env)), Package(Grub), env.At(Grub));
      var b := StageShim(env, a);
      var c := Move(b, Package(Fallback), env.At(Fallback));
      Move(c, Package(MokManager), env.At(MokManager))
  }

  /** The run up to bootupctl, with the initramfs `img` that dracut produced. */
  function Rebuild(env: Env, moved: FS, k: string, img: Content): FS {
    Stage(env, DropStale(Put(PurgeBoot(moved), Module(k, Initramfs), img), k))
  }

  /** `bootupctl backend generate-update-metadata` replaces the metadata area. */
  function Metadata(tool: FS -> Option<map<string, Content>>, fs: FS): Outcome {
    match tool(EfiTree(fs))
    case None => Aborted
    case Some(m) => Done(PutUpdates(fs, m))
  }

  predicate Brands(env: Env, fs: FS) {
    env.Shim() != "" && Efi(ShimDir, env.Shim(), VendorDir) in fs.dirs
  }

  function Brand(env: Env, fs: FS): Outcome {
    if !Brands(env, fs) then Done(fs)
    else match env.csv
      case None => Aborted
      case Some(c) => Done(Put(fs, Efi(ShimDir, env.Shim(), Csv), c))
  }

  function Publish(env: Env, fs: FS): Outcome {
    match env.bootupctl
    case None => Brand(env, fs)
    case Some(tool) =>
      match Metadata(tool, fs)
      case Aborted => Aborted
      case Done(g) => Brand(env, g)
  }

  function FinalizeKernel(env: Env, fs: FS, k: string): Outcome {
    match Relocate(fs, k)
    case Absent => Done(fs)
    case Broken => Aborted
    case Moved(g) =>
      match env.dracut(k, DracutView(PurgeBoot(g), k))
      case None => Aborted
      case Some(img) => Publish(env, Rebuild(env, g, k, img))
  }

  ghost function Finalize(env: Env, fs: FS, arg: string): Outcome {
    var k := Kernel(env.le, fs, arg);
    if k == "" then Done(fs) else FinalizeKernel(env, fs, k)
  }

  // ---------- the bootupd postinst ----------

  function CopyX64(v: string, fs: FS): FS {
    var a := Copy(fs, Package(Binary.Shim), Efi(ShimDir, v, Primary(Binary.Shim)));
    var b := Copy(a, Package(Binary.Shim), Efi(ShimDir, v, VendorShim));
    Copy(b, Package(MokManager), Efi(ShimDir, v, Primary(MokManager)))
  }

  function CopyArm(v: string, fs: FS): FS {
    var a := Copy(fs, Package(ShimArm), Efi(ShimDir, v, Primary(ShimArm)));
    var b := Copy(a, Package(ShimArm), Efi(ShimDir, v, VendorShimArm));
    Copy(b, Package(MokArm), Efi(ShimDir, v, Primary(MokArm)))
  }

  /** The copies of the bootupd package's `configure`; unlike bootc-finalize it never
      moves, and an absent shim package counts as version 0. */
  function CopyEfi(env: Env, fs: FS): FS {
    var v := env.shim.GetOr("0");
    var dirs := {Efi(ShimDir, v, BootDir), Efi(ShimDir, v, VendorDir), Updates("")};
    CopyArm(v, CopyX64(v, Mkdir(fs, dirs)))
  }

  function CopyCsv(env: Env, fs: FS): FS {
    var v := env.shim.GetOr("0");
    Copy(Copy(fs, PackageCsv, Efi(ShimDir, v, Csv)), PackageCsvArm, Efi(ShimDir, v, CsvArm))
  }

  /** The bootupd postinst, which fails without a working bootupctl. */
  function Configure(env: Env, fs: FS): Outcome {
    match env.bootupctl
    case None => Aborted
    case Some(tool) =>
      var staged := CopyEfi(env, fs);
      match tool(EfiTree(staged))
      case None => Aborted
      case Some(m) =>
        match env.setDefault(m)
        case None => Aborted
        case Some(d) => Done(CopyCsv(env, PutUpdates(staged, d)))
  }
}
