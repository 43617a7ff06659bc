/** The parts of an image's filesystem that the packaging scripts touch, and the
    shell commands they use on it. A path is named by the area it lies in, so two
    areas never overlap. */
module Image {

  type Content = string

  datatype Binary = Grub | Shim | Fallback | MokManager | ShimArm | MokArm

  datatype Component = ShimDir | Grub2Dir

  /** Entries of /usr/lib/modules/<kver>; `Top` is the directory itself. */
  datatype Entry = Top | Vmlinuz | Initramfs | KernelTree | ModulesDep | Deeper(rel: seq<string>)

  /** Entries of /usr/lib/efi/<component>/<version>/EFI. `BootDir` is BOOT and `VendorDir`
      is debian. `Primary` is where a binary is staged for the firmware: debian/grubx64.efi
      for GRUB, BOOT/BOOTX64.EFI and BOOT/BOOTAA64.EFI for the shims, BOOT/fbx64.efi,
      BOOT/mmx64.efi and BOOT/mmaa64.efi for the others. The vendor copies are
      debian/shimx64.efi and debian/shimaa64.efi, the boot entries debian/BOOTX64.CSV and
      debian/BOOTAA64.CSV. */
  datatype Slot = BootDir | VendorDir | Primary(binary: Binary) | VendorShim | VendorShimArm | Csv | CsvArm

  datatype Path =
    | Boot(rel: seq<string>)
    | Module(kver: string, entry: Entry)
    | Package(binary: Binary)
    | PackageCsv
    | PackageCsvArm
    | Efi(component: Component, version: string, slot: Slot)
    | Updates(name: string)
    | Elsewhere(path: string)

  datatype FS = FS(files: map<Path, Content>, dirs: set<Path>)

  /** Names a shell `*` expands to. */
  predicate Visible(name: string) {
    name != "" && name[0] != '.'
  }

  function Put(fs: FS, p: Path, c: Content): FS {
    fs.(files := fs.files[p := c])
  }

  function Mkdir(fs: FS, ds: set<Path>): FS {
    fs.(dirs := fs.dirs + ds)
  }

  /** `if [ -f src ]; then cp src dst; fi` */
  function Copy(fs: FS, src: Path, dst: Path): FS {
    if src in fs.files then Put(fs, dst, fs.files[src]) else fs
  }

  /** `if [ -f src ]; then mv src dst; fi` */
  function Move(fs: FS, src: Path, dst: Path): FS {
    if src in fs.files then fs.(files := fs.files[dst := fs.files[src]] - {src}) else fs
  }

  // What `rm -rf /boot/*` removes: everything below /boot except entries with a leading dot.
  predicate Purged(p: Path) {
    p.Boot? && p.rel != [] && Visible(p.rel[0])
  }

  function PurgeBoot(fs: FS): FS {
    FS(map p | p in fs.files && !Purged(p) :: fs.files[p], set p | p in fs.dirs && !Purged(p))
  }

  /** A kernel directory that still holds a module tree. */
  predicate HoldsTree(fs: FS, k: string) {
    Module(k, KernelTree) in fs.dirs || Module(k, ModulesDep) in fs.files
  }

  /** A directory the cleanup loop of a run for `selected` removes. */
  predicate Stale(fs: FS, selected: string, k: string) {
    k != selected && Visible(k) && Module(k, Top) in fs.dirs && !HoldsTree(fs, k)
  }

  predicate Dropped(fs: FS, selected: string, p: Path) {
    p.Module? && Stale(fs, selected, p.kver)
  }

  function DropStale(fs: FS, selected: string): FS {
    FS(map p | p in fs.files && !Dropped(fs, selected, p) :: fs.files[p],
       set p | p in fs.dirs && !Dropped(fs, selected, p))
  }

  /** What dracut reads for a kernel: its module directory without the initramfs, and
      the files no packaging script writes. */
  predicate DracutReads(k: string, p: Path) {
    p.Elsewhere? || (p.Module? && p.kver == k && p.entry != Initramfs)
  }

  function DracutView(fs: FS, k: string): FS {
    FS(map p | p in fs.files && DracutReads(k, p) :: fs.files[p],
       set p | p in fs.dirs && DracutReads(k, p))
  }

  /** The staged EFI tree, which bootupctl reads. */
  function EfiTree(fs: FS): FS {
    FS(map p | p in fs.files && p.Efi? :: fs.files[p], set p | p in fs.dirs && p.Efi?)
  }

  function WithoutUpdates(fs: FS): FS {
    FS(map p | p in fs.files && !p.Updates? :: fs.files[p], set p | p in fs.dirs && !p.Updates?)
  }

  /** Replace the bootupd metadata area. */
  function PutUpdates(fs: FS, m: map<string, Content>): FS {
    fs.(files := WithoutUpdates(fs).files + map n | n in m :: Updates(n) := m[n])
  }
}
