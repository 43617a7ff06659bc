/** dc-gpu: the GPU profile commands as functions of the machine and of the files they
    keep, and what any sequence of commands leaves for the linker and the loaders. */
module DcGpu {
  import opened Text

  const LIBDIR := "/usr/lib/dc-gpu"
  const SHAREDIR := "/usr/share/dc-gpu"
  const OCL_DIR := "/etc/dc-gpu/OpenCL/vendors"
  const OCL_LINE := "OCL_ICD_VENDORS=" + OCL_DIR

  /** The machine as one command finds it: the vendor and status files of the DRM tree in
      glob order (`None` when unreadable), the existing directories, the visible names of
      each directory in glob order (false for a dangling link), the expansion of
      /usr/lib/?/dri, and whether the licence consent file exists. */
  datatype Env = Env(
    cards: seq<Option<string>>,
    connectors: seq<Option<string>>,
    dirs: set<string>,
    names: map<string, seq<(string, bool)>>,
    driDirs: seq<string>,
    consent: bool)

  /** The files dc-gpu writes; `ocl` is the merged directory, name to link target. */
  datatype State = State(
    usage: Option<string>,
    modload: Option<seq<string>>,
    ldconf: Option<string>,
    envfile: Option<seq<string>>,
    ocl: Option<map<string, string>>)

  // ---------- detection ----------

  function VendorName(id: string): Option<string> {
    match Chomp(id)
    case "0x1002" => Some("amd")
    case "0x8086" => Some("intel")
    case "0x10de" => Some("nvidia")
    case _ => None
  }

  predicate Detected(env: Env, vendor: string) {
    exists i :: 0 <= i < |env.cards| && env.cards[i].Some? && VendorName(env.cards[i].value) == Some(vendor)
  }

  predicate Connected(env: Env) {
    exists i :: 0 <= i < |env.connectors| && env.connectors[i].Some? && Chomp(env.connectors[i].value) == "connected"
  }

  /** The kernel modules of a stored profile: the NVIDIA compute stack needs the device,
      the consent and a profile other than gaming. */
  function Modules(env: Env, profile: string): seq<string> {
    if Detected(env, "nvidia") && profile != "gaming" && env.consent
    then ["nvidia", "nvidia_uvm", "nvidia_drm"] else []
  }

  function ModLoad(env: Env, profile: string): seq<string> {
    ["# Written by dc-gpu for profile " + profile] + Modules(env, profile)
  }

  function Resolve(env: Env, profile: string): string {
    if profile != "auto" then profile else if Connected(env) then "gaming" else "ia"
  }

  // ---------- search lists ----------

  function Names(env: Env, d: string): seq<(string, bool)> {
    if d in env.names then env.names[d] else []
  }

  /** The existing entries of d that end in the suffix, as paths. */
  function Matching(d: string, suffix: string, names: seq<(string, bool)>): seq<string> {
    if names == [] then []
    else
      var rest := Matching(d, suffix, names[..|names| - 1]);
      var (name, exist) := names[|names| - 1];
      if exist && EndsWith(name, suffix) then rest + [d + "/" + name] else rest
  }

  function MatchingAll(env: Env, suffix: string, ds: seq<string>): seq<string> {
    if ds == [] then []
    else MatchingAll(env, suffix, ds[..|ds| - 1]) + Matching(ds[|ds| - 1], suffix, Names(env, ds[|ds| - 1]))
  }

  function Existing(env: Env, ds: seq<string>): seq<string> {
    if ds == [] then []
    else Existing(env, ds[..|ds| - 1]) + (if ds[|ds| - 1] in env.dirs then [ds[|ds| - 1]] else [])
  }

  // ---------- the userspace build of a profile ----------

  function Prefix(prof: string): string { LIBDIR + "/" + prof }

  function Share(prof: string): string { SHAREDIR + "/" + prof }

  predicate Installed(env: Env, prof: string) {
    Prefix(prof) + "/lib" in env.dirs
  }

  function Vulkan(env: Env, prof: string): seq<string> {
    MatchingAll(env, ".json", [Share(prof) + "/vulkan/icd.d", "/etc/vulkan/icd.d", "/usr/share/vulkan/icd.d"])
  }

  function Egl(env: Env, prof: string): seq<string> {
    Existing(env, [Share(prof) + "/glvnd/egl_vendor.d", "/etc/glvnd/egl_vendor.d", "/usr/share/glvnd/egl_vendor.d"])
  }

  function Va(env: Env, prof: string): seq<string> {
    [Prefix(prof) + "/lib/dri"] + Existing(env, env.driDirs + ["/usr/lib/dri"])
  }

  predicate ShipsOpenCL(env: Env, prof: string) {
    Share(prof) + "/etc/OpenCL/vendors" in env.dirs
  }

  function VulkanLines(env: Env, prof: string): seq<string> {
    var vk := Join(Vulkan(env, prof), ':');
    if vk != "" then ["VK_DRIVER_FILES=" + vk, "VK_ICD_FILENAMES=" + vk] else []
  }

  function EglLines(env: Env, prof: string): seq<string> {
    var egl := Join(Egl(env, prof), ':');
    if egl != "" then ["__EGL_VENDOR_LIBRARY_DIRS=" + egl] else []
  }

  function DriLines(env: Env, prof: string): seq<string> {
    if Prefix(prof) + "/lib/dri" in env.dirs
    then ["LIBGL_DRIVERS_PATH=" + Prefix(prof) + "/lib/dri", "LIBVA_DRIVERS_PATH=" + Join(Va(env, prof), ':')]
    else []
  }

  function PathLines(env: Env, prof: string): seq<string> {
    (if Prefix(prof) + "/lib/gbm" in env.dirs then ["GBM_BACKENDS_PATH=" + Prefix(prof) + "/lib/gbm"] else [])
    + (if Prefix(prof) + "/lib/vdpau" in env.dirs then ["VDPAU_DRIVER_PATH=" + Prefix(prof) + "/lib/vdpau"] else [])
  }

  function Header(prof: string): string {
    "# Written by dc-gpu for userspace profile " + prof
  }

  function EnvLines(env: Env, prof: string): seq<string> {
    [Header(prof)] + VulkanLines(env, prof) + EglLines(env, prof) + DriLines(env, prof) + PathLines(env, prof)
    + (if ShipsOpenCL(env, prof) then [OCL_LINE] else [])
  }

  /** Links of one directory's ICDs: each name points at the file in d. */
  function Links(d: string, names: seq<(string, bool)>): map<string, string> {
    map n | n in (set e | e in names && e.1 && EndsWith(e.0, ".icd") :: e.0) :: d + "/" + n
  }

  /** The profile's ICDs overridden by the host's. */
  function Merged(env: Env, prof: string): map<string, string> {
    var build, host := Share(prof) + "/etc/OpenCL/vendors", "/etc/OpenCL/vendors";
    Links(build, Names(env, build)) + Links(host, Names(env, host))
  }

  // ---------- commands ----------

  function Userspace(env: Env, st: State, prof: string): State {
    if !Installed(env, prof) then st.(ldconf := None, envfile := None)
    else st.(ldconf := Some(Prefix(prof) + "/lib"),
             envfile := Some(EnvLines(env, prof)),
             ocl := if ShipsOpenCL(env, prof) then Some(Merged(env, prof)) else st.ocl)
  }

  function Apply(env: Env, st: State, profile: string): State {
    Userspace(env, st.(modload := Some(ModLoad(env, profile))), Resolve(env, profile))
  }

  function Current(st: State): string {
    if st.usage.Some? then Chomp(st.usage.value) else "auto"
  }

  predicate IsSet(argv: seq<string>) {
    |argv| == 2 && argv[0] == "set" && argv[1] in {"gaming", "ia", "auto"}
  }

  predicate IsApply(argv: seq<string>) {
    argv == ["apply"]
  }

  predicate IsStatus(argv: seq<string>) {
    |argv| >= 1 && argv[0] == "status"
  }

  /** One invocation: the new files and the exit status. */
  function Command(env: Env, st: State, argv: seq<string>): (State, nat) {
    if IsSet(argv) then (Apply(env, st.(usage := Some(argv[1] + "\n")), argv[1]), 0)
    else if IsApply(argv) then (Apply(env, st, Current(st)), 0)
    else if IsStatus(argv) then (st, 0)
    else (st, 2)
  }
}
