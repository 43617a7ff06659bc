/** fisherman's post-install steps on the files of the deployed system, in the order the
    recipe drives them. */
module Fisherman {
  import opened Text
  import opened Shapes
  import opened Lines
  import opened Hosts
  import opened Locale
  import opened Installer

  /** The files below the deployment's /etc; `updateTimer` is where the update timer's unit
      links to. */
  datatype Etc = Etc(
    hosts: Option<string>,
    lang: Option<string>,
    localeGen: Option<string>,
    keyboard: Option<string>,
    updateTimer: Option<string>,
    sshPolicy: Option<string>,
    usage: Option<string>,
    consent: Option<string>,
    gpuSet: Option<string>,
    modprobe: map<string, string>)

  datatype Result = Written(etc: Etc) | Fatal

  // ---------- single steps ----------

  ghost function WriteHosts(etc: Etc, hostname: string): Result {
    if hostname == "" then Written(etc)
    else if !GoHostname(hostname) then Fatal
    else Written(etc.(hosts := Some(Rewrite(hostname, etc.hosts.GetOr("")))))
  }

  ghost function WriteLocale(etc: Etc, locale: string): Result {
    if !GoLocale(locale) then Fatal
    else Written(etc.(lang := Some(LangFile(locale)), localeGen := Some(GenFile(locale))))
  }

  ghost predicate GoKeyboard(k: Keyboard) {
    GoXkb(k.model) && GoXkb(k.layout) && (k.variant == "" || GoXkb(k.variant))
  }

  ghost function WriteKeyboard(etc: Etc, k: Keyboard): Result {
    if !GoKeyboard(k) then Fatal
    else Written(etc.(keyboard := Some(KeyboardFile(k.model, k.layout, k.variant))))
  }

  /** Masks the update timer. */
  function DisableAutoUpdate(etc: Etc): Result {
    Written(etc.(updateTimer := Some("/dev/null")))
  }

  function WriteSshPolicy(etc: Etc, allow: bool): Result {
    Written(etc.(sshPolicy := Some("PermitRootLogin " + (if allow then "yes" else "no") + "\n")))
  }

  function WriteGpuProfile(etc: Etc, usage: string, consent: bool): Result {
    if usage !in {"gaming", "ia", "auto"} then Fatal
    else Written(etc.(usage := Some(usage + "\n"),
                      consent := if consent then Some("accepted-at-install\n") else etc.consent))
  }

  /** dc-gpu-<set without its gpu- prefix>.conf */
  function PolicyName(gpuSet: string): string {
    "dc-gpu-" + (if StartsWith(gpuSet, "gpu-") then gpuSet[4..] else gpuSet) + ".conf"
  }

  function WriteGpuSet(etc: Etc, payloads: map<string, string>, gpuSet: string): Result {
    if gpuSet !in {"gpu-ia", "gpu-gaming", "gpu-ia-nvidia", "gpu-gaming-nvidia"} then Fatal
    else if PolicyName(gpuSet) !in payloads then Fatal
    else Written(etc.(gpuSet := Some(gpuSet + "\n"),
                      modprobe := etc.modprobe[PolicyName(gpuSet) := payloads[PolicyName(gpuSet)]]))
  }

  // ---------- the sequence ----------

  /** An absent model in the recipe means the default one. */
  function WithModel(k: Keyboard): Keyboard {
    if k.model == "" then k.(model := DEFAULT_MODEL) else k
  }

  ghost function PostSystem(r: Recipe, etc: Etc): Result {
    match WriteHosts(etc, r.hostname)
    case Fatal => Fatal
    case Written(a) =>
      match if r.locale != "" then WriteLocale(a, r.locale) else Written(a)
      case Fatal => Fatal
      case Written(b) =>
        if r.keyboard.Some? && r.keyboard.value.layout != "" then WriteKeyboard(b, WithModel(r.keyboard.value)) else Written(b)
  }

  function PostGpu(r: Recipe, payloads: map<string, string>, etc: Etc): Result {
    var m := if r.autoUpdate == Some(false) then DisableAutoUpdate(etc).etc else etc;
    var a := if r.sshRootLogin.Some? then WriteSshPolicy(m, r.sshRootLogin.value).etc else m;
    match if r.gpuUsage != "" then WriteGpuProfile(a, r.gpuUsage, r.nvidiaConsent) else Written(a)
    case Fatal => Fatal
    case Written(b) => if r.gpuSet != "" then WriteGpuSet(b, payloads, r.gpuSet) else Written(b)
  }

  /** The post steps of one installation; the first failing one is fatal. */
  ghost function Post(r: Recipe, payloads: map<string, string>, etc: Etc): Result {
    match PostSystem(r, etc)
    case Fatal => Fatal
    case Written(a) => PostGpu(r, payloads, a)
  }

  // ---------- the same steps on the target ----------

  class Target {
    var etc: Etc
    var hostsWrites: nat
    const payloads: map<string, string>

    constructor (etc: Etc, payloads: map<string, string>)
      ensures this.etc == etc && this.payloads == payloads && hostsWrites == 0
    {
      this.etc, this.payloads, this.hostsWrites := etc, payloads, 0;
    }

    method HostsBootstrap(hostname: string) returns (ok: bool)
      modifies this
      ensures ok <==> WriteHosts(old(etc), hostname).Written?
      ensures if ok then Written(etc) == WriteHosts(old(etc), hostname) else etc == old(etc)
      ensures hostsWrites <= old(hostsWrites) + 1
      ensures hostsWrites == old(hostsWrites) <==> etc.hosts == old(etc.hosts)
    {
      if hostname == "" { return true; }
      HostnameVersus(hostname);
      var valid := ScanHost(hostname);
      if !valid { return false; }
      var hosts := etc.hosts.GetOr("");
      var text := RewriteText(hostname, hosts);
      BootstrapNamesHost(hostname, hosts);
      EmptyHasNoBootstrap();
      if text == hosts { return true; }
      etc := etc.(hosts := Some(text));
      hostsWrites := hostsWrites + 1;
      return true;
    }

    method LocaleFiles(locale: string) returns (ok: bool)
      modifies this`etc
      ensures ok <==> WriteLocale(old(etc), locale).Written?
      ensures if ok then Written(etc) == WriteLocale(old(etc), locale) else etc == old(etc)
    {
      ok := ScanLocale(locale);
      if !ok { return; }
      etc := etc.(lang := Some("LANG=" + locale + "\n"));
      etc := etc.(localeGen := Some(locale + " " + Charset(locale) + "\n"));
    }

    method KeyboardSettings(k: Keyboard) returns (ok: bool)
      modifies this`etc
      ensures ok <==> WriteKeyboard(old(etc), k).Written?
      ensures if ok then Written(etc) == WriteKeyboard(old(etc), k) else etc == old(etc)
    {
      var model := ScanXkb(k.model);
      var layout := ScanXkb(k.layout);
      var variant := ScanXkb(k.variant);
      if !model || !layout || (k.variant != "" && !variant) { return false; }
      etc := etc.(keyboard := Some(KeyboardFile(k.model, k.layout, k.variant)));
      return true;
    }

    /** The steps of the system choices: hosts, locale, keyboard. */
    method SystemSteps(r: Recipe) returns (ok: bool)
      modifies this
      ensures ok <==> PostSystem(r, old(etc)).Written?
      ensures ok ==> Written(etc) == PostSystem(r, old(etc))
    {
      var done := HostsBootstrap(r.hostname);
      if !done { return false; }
      if r.locale != "" {
        done := LocaleFiles(r.locale);
        if !done { return false; }
      }
      if r.keyboard.Some? && r.keyboard.value.layout != "" {
        done := KeyboardSettings(WithModel(r.keyboard.value));
        if !done { return false; }
      }
      return true;
    }

    /** The update timer, the ssh policy, the GPU usage and the module set. */
    method GpuSteps(r: Recipe) returns (ok: bool)
      modifies this`etc
      ensures ok <==> PostGpu(r, payloads, old(etc)).Written?
      ensures ok ==> Written(etc) == PostGpu(r, payloads, old(etc))
    {
      if r.autoUpdate == Some(false) {
        etc := etc.(updateTimer := Some("/dev/null"));
      }
      if r.sshRootLogin.Some? {
        etc := WriteSshPolicy(etc, r.sshRootLogin.value).etc;
      }
      if r.gpuUsage != "" {
        if r.gpuUsage !in {"gaming", "ia", "auto"} { return false; }
        etc := etc.(usage := Some(r.gpuUsage + "\n"));
        if r.nvidiaConsent { etc := etc.(consent := Some("accepted-at-install\n")); }
      }
      if r.gpuSet != "" {
        if r.gpuSet !in {"gpu-ia", "gpu-gaming", "gpu-ia-nvidia", "gpu-gaming-nvidia"} { return false; }
        var conf := PolicyName(r.gpuSet);
        if conf !in payloads { return false; }
        etc := etc.(gpuSet := Some(r.gpuSet + "\n"), modprobe := etc.modprobe[conf := payloads[conf]]);
      }
      return true;
    }

    /** The post steps of main.go. */
    method Install(r: Recipe) returns (ok: bool)
      modifies this
      ensures ok <==> Post(r, payloads, old(etc)).Written?
      ensures ok ==> Written(etc) == Post(r, payloads, old(etc))
    {
      ok := SystemSteps(r);
      if ok { ok := GpuSteps(r); }
    }
  }

  lemma EmptyHasNoBootstrap()
    ensures Split("", '\n') == [""] && !IsBootstrap("")
  {
  }

  /** The line of the loopback address: blanks, then something. */
  method IsBootstrapLine(line: string) returns (b: bool)
    ensures b <==> IsBootstrap(line)
  {
    if !StartsWith(line, LOOPBACK) { return false; }
    var k := Span(line, |LOOPBACK|, Regex.Blank);
    assert forall x :: HostAt(LOOPBACK, line, x) ==> x == k;
    b := |LOOPBACK| < k < |line| && Regex.In(Regex.NonSpace, line[k]);
    assert b ==> HostAt(LOOPBACK, line, k);
  }

  method AnyBootstrap(lines: seq<string>) returns (b: bool)
    ensures b <==> Any(IsBootstrap, lines)
  {
    b := false;
    for i := 0 to |lines|
      invariant b <==> exists k :: 0 <= k < i && IsBootstrap(lines[k])
    {
      var here := IsBootstrapLine(lines[i]);
      b := b || here;
    }
  }

  /** The rewrite of WriteHostsBootstrap, line by line. */
  method RewriteText(h: string, text: string) returns (r: string)
    ensures r == Rewrite(h, text)
  {
    var lines, boot := Split(text, '\n'), Bootstrap(h);
    var out: seq<string> := [];
    for i := 0 to |lines|
      invariant |out| == i
      invariant forall k :: 0 <= k < i ==> out[k] == if IsBootstrap(lines[k]) then boot else lines[k]
    {
      var here := IsBootstrapLine(lines[i]);
      out := out + [if here then boot else lines[i]];
    }
    assert out == Replaced(IsBootstrap, lines, boot);
    r := Join(out, '\n');
    var found := AnyBootstrap(Split(r, '\n'));
    if !found {
      if r != "" && !EndsWith(r, "\n") { r := r + "\n"; }
      r := r + boot + "\n";
    }
  }
}
