/** What the user answers in the installer is what the installed system holds, said on the
    answers and the files alone. */
module Answers {
  import opened Text
  import opened Shapes
  import opened Hosts
  import opened Locale
  import opened Installer
  import opened Fisherman
  import opened EndToEnd

  // ---------- the recipe ----------

  /** The account answers in the recipe: a non-empty root password, the ssh choice, and
      the user's groups, with sudo unless it was refused. */
  lemma AccountAnswers(base: Recipe, s: SystemStep, gpu: Option<GpuStep>, r: Recipe)
    requires r == Built(base, Some(s), gpu)
    ensures s.rootPassword.Some? && s.rootPassword.value != "" ==> r.rootPassword == s.rootPassword.value
    ensures s.rootPassword.GetOr("") == "" ==> r.rootPassword == base.rootPassword
    ensures s.sshRootLogin.Some? ==> r.sshRootLogin == s.sshRootLogin
    ensures s.sshRootLogin.None? ==> r.sshRootLogin == base.sshRootLogin
    ensures base.user.Some? && base.user.value.username != "" && s != SystemStep(None, None, None, None, None) ==>
              && r.user.Some? && r.user.value.username == base.user.value.username
              && ("sudo" in r.user.value.groups <==> s.sudo != Some(false))
              && forall g :: g != "sudo" ==>
                   (g in r.user.value.groups <==>
                    g in base.user.value.groups
                    || g in ["adm", "systemd-journal", "cdrom", "audio", "video", "plugdev", "netdev"])
  {
    GpuFrame(ApplyLocale(ApplySystem(base, Some(s)), Some(s)), base.rootPassword, base.sshRootLogin, base.user, gpu);
    if base.user.Some? {
      GroupsAnswered(base.user.value.groups, s.sudo.GetOr(true));
    }
  }

  lemma GroupsAnswered(groups: seq<string>, sudo: bool)
    ensures "sudo" in UserGroups(groups, sudo) <==> sudo
    ensures forall g :: g != "sudo" ==>
              (g in UserGroups(groups, sudo) <==>
               g in groups || g in ["adm", "systemd-journal", "cdrom", "audio", "video", "plugdev", "netdev"])
  {
    UserGroupsMembers(groups, sudo, "sudo");
    forall g ensures g != "sudo" ==> (g in UserGroups(groups, sudo) <==> g in groups || g in DEBIAN_USER_GROUPS) {
      UserGroupsMembers(groups, sudo, g);
    }
  }

  /** The order of the groups: sudo first, then the user's own, then the Debian ones. */
  lemma GroupsInOrder(base: seq<string>)
    requires forall g :: g in base ==> g != "sudo" && g !in ["adm", "systemd-journal", "cdrom", "audio", "video", "plugdev", "netdev"]
    ensures var all := base + ["adm", "systemd-journal", "cdrom", "audio", "video", "plugdev", "netdev"];
            UserGroups(base, false) == all && UserGroups(base, true) == ["sudo"] + all
            && UserGroups(["sudo"] + base, false) == all && UserGroups(base + ["sudo"], true) == ["sudo"] + all
  {
    WithoutExact(base, "sudo");
    AdminDropped(base, "sudo");
    AllMissing(DEBIAN_USER_GROUPS, base);
  }

  lemma AdminDropped(base: seq<string>, admin: string)
    requires admin !in base
    ensures Without(base, admin) == Without([admin] + base, admin) == Without(base + [admin], admin) == base
  {
    WithoutExact(base, admin);
    WithoutAppend([admin], base, admin);
    WithoutAppend(base, [admin], admin);
    assert Without([admin], admin) == [];
  }

  lemma {:induction false} AllMissing(wanted: seq<string>, there: seq<string>)
    requires forall g :: g in there ==> g !in wanted
    ensures Missing(wanted, there) == wanted
  {
    if wanted == [] {
    } else {
      AllMissing(wanted[1..], there);
      assert wanted == [wanted[0]] + wanted[1..];
    }
  }

  /** The GPU answers in the recipe. */
  lemma GpuAnswers(base: Recipe, system: Option<SystemStep>, g: GpuStep, r: Recipe)
    requires r == Built(base, system, Some(g))
    ensures g.sigEnforce.Some? ==> r.sigEnforce == g.sigEnforce
    ensures g.sigEnforce.None? ==> r.sigEnforce == base.sigEnforce
    ensures var nvidia := g.nvidiaConsent == Some(true) || g.nvidia == Some(true);
            var image := if g.imgref.Some? && g.imgref.value != "" then g.imgref.value
                         else if g.selectedImage.Some? then g.selectedImage.value else "";
            if g.usage in {Some("auto"), Some("gaming"), Some("ia")} then
              && r.gpuUsage == g.usage.value
              && r.nvidiaConsent == (g.nvidiaConsent == Some(true))
              && r.gpuSet == (if g.usage == Some("ia") then if nvidia then "gpu-ia-nvidia" else "gpu-ia"
                              else if nvidia then "gpu-gaming-nvidia" else "gpu-gaming")
              && r.imgref == (if nvidia && image != "" then image + "-nvidia" else base.imgref)
            else r.gpuUsage == base.gpuUsage && r.nvidiaConsent == base.nvidiaConsent
                 && r.gpuSet == base.gpuSet && r.imgref == base.imgref
  {
    SetNames();
  }

  /** The names in the recipe: a locale or a keyboard that passes Python's patterns is
      taken over, any other choice is dropped. */
  lemma NameAnswers(base: Recipe, s: SystemStep, gpu: Option<GpuStep>, r: Recipe)
    requires r == Built(base, Some(s), gpu)
    ensures s.locale.Some? && PyLocale(s.locale.value) ==> r.locale == s.locale.value
    ensures !(s.locale.Some? && PyLocale(s.locale.value)) ==> r.locale == base.locale
    ensures var k := s.keyboard.GetOr(KeyboardChoice(None, None, None));
            var model := if k.model.GetOr("") == "" then "pc105" else k.model.value;
            var variant := if k.variant.Some? then k.variant.value else "";
            if k.layout.Some? && PyXkb(k.layout.value) && PyXkb(model) && (variant == "" || PyXkb(variant))
            then r.keyboard == Some(Keyboard(model, k.layout.value, variant))
            else r.keyboard == base.keyboard
  {
    EmptyFails();
    GpuKeepsNames(ApplyLocale(ApplySystem(base, Some(s)), Some(s)), gpu);
  }

  lemma EmptyFails()
    ensures !PyLocale("") && !PyXkb("")
  {
    LocaleVersus("");
    if GoLocale("") { LocaleWord(""); }
    XkbVersus("");
    if GoXkb("") { Regex.GoAnchored(XKB_BODY, ""); XkbExact(Regex.Go, ""); }
  }

  // ---------- the installed files ----------

  /** The system answers on the installed system. */
  lemma SystemInstalled(base: Recipe, s: SystemStep, gpu: Option<GpuStep>, payloads: map<string, string>, etc: Etc, end: Etc)
    requires Fresh(base) && Post(Built(base, Some(s), gpu), payloads, etc) == Written(end)
    ensures s.sshRootLogin == Some(false) ==> end.sshPolicy == Some("PermitRootLogin no\n")
    ensures s.sshRootLogin == Some(true) ==> end.sshPolicy == Some("PermitRootLogin yes\n")
    ensures s.sshRootLogin == None && base.sshRootLogin == None ==> end.sshPolicy == etc.sshPolicy
    ensures end.updateTimer == if base.autoUpdate == Some(false) then Some("/dev/null") else etc.updateTimer
  {
    var r := Built(base, Some(s), gpu);
    AccountAnswers(base, s, gpu, r);
    UpdateKept(base, Some(s), gpu);
    FilesHoldChoices(base, Some(s), gpu, payloads, etc);
    PolicyHeld(end, etc, r, payloads);
  }

  lemma UpdateKept(base: Recipe, system: Option<SystemStep>, gpu: Option<GpuStep>)
    ensures Built(base, system, gpu).autoUpdate == base.autoUpdate
  {
  }

  lemma PolicyHeld(end: Etc, etc: Etc, r: Recipe, payloads: map<string, string>)
    requires HoldsPolicies(end, etc, r, payloads)
    ensures end.updateTimer == if r.autoUpdate == Some(false) then Some("/dev/null") else etc.updateTimer
    ensures r.sshRootLogin == Some(false) ==> end.sshPolicy == Some("PermitRootLogin no\n")
    ensures r.sshRootLogin == Some(true) ==> end.sshPolicy == Some("PermitRootLogin yes\n")
    ensures r.sshRootLogin == None ==> end.sshPolicy == etc.sshPolicy
  {
  }

  /** The locale answer on the installed system. */
  lemma LocaleInstalled(base: Recipe, s: SystemStep, gpu: Option<GpuStep>, payloads: map<string, string>, etc: Etc, end: Etc)
    requires Fresh(base) && Post(Built(base, Some(s), gpu), payloads, etc) == Written(end)
    ensures if s.locale.Some? && PyLocale(s.locale.value) then end.lang == Some("LANG=" + s.locale.value + "\n")
            else end.lang == etc.lang && end.localeGen == etc.localeGen
  {
    NameAnswers(base, s, gpu, Built(base, Some(s), gpu));
    EmptyFails();
    FilesHoldChoices(base, Some(s), gpu, payloads, etc);
  }

  /** The keyboard answer on the installed system: the three names are read back from the
      file, pc105 for a model that was not given. */
  lemma KeyboardInstalled(base: Recipe, s: SystemStep, gpu: Option<GpuStep>, payloads: map<string, string>, etc: Etc, end: Etc)
    requires Fresh(base) && Post(Built(base, Some(s), gpu), payloads, etc) == Written(end)
    ensures var k := s.keyboard.GetOr(KeyboardChoice(None, None, None));
            var model := if k.model.GetOr("") == "" then "pc105" else k.model.value;
            var variant := if k.variant.Some? then k.variant.value else "";
            if k.layout.Some? && PyXkb(k.layout.value) && PyXkb(model) && (variant == "" || PyXkb(variant))
            then && end.keyboard.Some?
                 && ReadVar(Split(end.keyboard.value, '\n'), "XKBMODEL") == Some(model)
                 && ReadVar(Split(end.keyboard.value, '\n'), "XKBLAYOUT") == k.layout
                 && ReadVar(Split(end.keyboard.value, '\n'), "XKBVARIANT") == Some(variant)
            else end.keyboard == etc.keyboard
  {
    NameAnswers(base, s, gpu, Built(base, Some(s), gpu));
    FilesHoldChoices(base, Some(s), gpu, payloads, etc);
  }

  /** The default model passes the pattern. */
  lemma DefaultModel()
    ensures PyXkb("pc105") && GoXkb("pc105")
  {
    Regex.GoAnchored(XKB_BODY, "pc105");
    XkbExact(Regex.Go, "pc105");
    XkbVersus("pc105");
  }

  /** The GPU answers on the installed system. */
  lemma GpuInstalled(base: Recipe, system: Option<SystemStep>, g: GpuStep, payloads: map<string, string>, etc: Etc, end: Etc)
    requires Fresh(base) && Post(Built(base, system, Some(g)), payloads, etc) == Written(end)
    ensures var nvidia := g.nvidiaConsent == Some(true) || g.nvidia == Some(true);
            if g.usage in {Some("auto"), Some("gaming"), Some("ia")} then
              && end.usage == Some(g.usage.value + "\n")
              && end.gpuSet == Some(if g.usage == Some("ia") then if nvidia then "gpu-ia-nvidia\n" else "gpu-ia\n"
                                    else if nvidia then "gpu-gaming-nvidia\n" else "gpu-gaming\n")
              && end.consent == if g.nvidiaConsent == Some(true) then Some("accepted-at-install\n") else etc.consent
            else end.usage == etc.usage && end.gpuSet == etc.gpuSet && end.consent == etc.consent && end.modprobe == etc.modprobe
  {
    var r := Built(base, system, Some(g));
    GpuAnswers(base, system, g, r);
    FilesHoldChoices(base, system, Some(g), payloads, etc);
    if r.gpuUsage != "" {
      UsageWritten(r, payloads, etc);
    }
    SetLines();
  }

  lemma SetLines()
    ensures "gpu-ia" + "\n" == "gpu-ia\n" && "gpu-gaming" + "\n" == "gpu-gaming\n"
    ensures "gpu-ia-nvidia" + "\n" == "gpu-ia-nvidia\n" && "gpu-gaming-nvidia" + "\n" == "gpu-gaming-nvidia\n"
  {
  }

  lemma UsageWritten(r: Recipe, payloads: map<string, string>, etc: Etc)
    requires Post(r, payloads, etc).Written? && r.gpuUsage != ""
    ensures Post(r, payloads, etc).etc.usage == Some(r.gpuUsage + "\n")
  {
  }

  /** The loader policy delivered for each choice. */
  lemma PolicyInstalled(base: Recipe, system: Option<SystemStep>, g: GpuStep, payloads: map<string, string>, etc: Etc, end: Etc)
    requires Fresh(base) && Post(Built(base, system, Some(g)), payloads, etc) == Written(end)
    requires g.usage in {Some("auto"), Some("gaming"), Some("ia")}
    ensures var nvidia := g.nvidiaConsent == Some(true) || g.nvidia == Some(true);
            var conf := if g.usage == Some("ia") then if nvidia then "dc-gpu-ia-nvidia.conf" else "dc-gpu-ia.conf"
                        else if nvidia then "dc-gpu-gaming-nvidia.conf" else "dc-gpu-gaming.conf";
            conf in payloads && end.modprobe == etc.modprobe[conf := payloads[conf]]
  {
    GpuAnswers(base, system, g, Built(base, system, Some(g)));
    FilesHoldChoices(base, system, Some(g), payloads, etc);
    PolicyNames();
  }

  lemma PolicyNames()
    ensures PolicyName("gpu-ia") == "dc-gpu-ia.conf" && PolicyName("gpu-gaming") == "dc-gpu-gaming.conf"
    ensures PolicyName("gpu-ia-nvidia") == "dc-gpu-ia-nvidia.conf" && PolicyName("gpu-gaming-nvidia") == "dc-gpu-gaming-nvidia.conf"
  {
    OpenPolicies();
    NvidiaNames();
    PolicyOf("gpu-ia-nvidia", "ia-nvidia");
    PolicyOf("gpu-gaming-nvidia", "gaming-nvidia");
  }

  lemma OpenPolicies()
    ensures PolicyName("gpu-ia") == "dc-gpu-ia.conf" && PolicyName("gpu-gaming") == "dc-gpu-gaming.conf"
  {
    PolicyOf("gpu-ia", "ia");
    PolicyOf("gpu-gaming", "gaming");
  }

  lemma NvidiaNames()
    ensures "gpu-" + "ia-nvidia" == "gpu-ia-nvidia" && "gpu-" + "gaming-nvidia" == "gpu-gaming-nvidia"
    ensures "dc-gpu-" + "ia-nvidia" + ".conf" == "dc-gpu-ia-nvidia.conf"
    ensures "dc-gpu-" + "gaming-nvidia" + ".conf" == "dc-gpu-gaming-nvidia.conf"
  {
  }

  lemma PolicyOf(gpuSet: string, name: string)
    requires gpuSet == "gpu-" + name
    ensures PolicyName(gpuSet) == "dc-gpu-" + name + ".conf"
  {
    assert gpuSet[..4] == "gpu-" && gpuSet[4..] == name;
  }

  /** Whatever the recipe, the post steps succeed exactly when each name it gives is well
      formed, the usage and the set are known, and the set's policy is on the medium. */
  lemma PostExactly(r: Recipe, payloads: map<string, string>, etc: Etc)
    ensures Post(r, payloads, etc).Written? <==>
              && (r.hostname != "" ==> GoHostname(r.hostname))
              && (r.locale != "" ==> GoLocale(r.locale))
              && (r.keyboard.Some? && r.keyboard.value.layout != "" ==>
                    var k := r.keyboard.value;
                    GoXkb(k.layout) && (k.model != "" ==> GoXkb(k.model)) && (k.variant != "" ==> GoXkb(k.variant)))
              && (r.gpuUsage != "" ==> r.gpuUsage in {"auto", "gaming", "ia"})
              && (r.gpuSet != "" ==>
                    || (r.gpuSet == "gpu-ia" && "dc-gpu-ia.conf" in payloads)
                    || (r.gpuSet == "gpu-gaming" && "dc-gpu-gaming.conf" in payloads)
                    || (r.gpuSet == "gpu-ia-nvidia" && "dc-gpu-ia-nvidia.conf" in payloads)
                    || (r.gpuSet == "gpu-gaming-nvidia" && "dc-gpu-gaming-nvidia.conf" in payloads))
  {
    SystemSucceeds(r, etc);
    if PostSystem(r, etc).Written? {
      GpuSucceeds(r, payloads, PostSystem(r, etc).etc);
    }
  }

  lemma SystemSucceeds(r: Recipe, etc: Etc)
    ensures PostSystem(r, etc).Written? <==>
              && (r.hostname != "" ==> GoHostname(r.hostname))
              && (r.locale != "" ==> GoLocale(r.locale))
              && (r.keyboard.Some? && r.keyboard.value.layout != "" ==>
                    var k := r.keyboard.value;
                    GoXkb(k.layout) && (k.model != "" ==> GoXkb(k.model)) && (k.variant != "" ==> GoXkb(k.variant)))
  {
    DefaultModel();
    XkbVersus("pc105");
  }

  lemma GpuSucceeds(r: Recipe, payloads: map<string, string>, etc: Etc)
    ensures PostGpu(r, payloads, etc).Written? <==>
              && (r.gpuUsage != "" ==> r.gpuUsage in {"auto", "gaming", "ia"})
              && (r.gpuSet != "" ==>
                    || (r.gpuSet == "gpu-ia" && "dc-gpu-ia.conf" in payloads)
                    || (r.gpuSet == "gpu-gaming" && "dc-gpu-gaming.conf" in payloads)
                    || (r.gpuSet == "gpu-ia-nvidia" && "dc-gpu-ia-nvidia.conf" in payloads)
                    || (r.gpuSet == "gpu-gaming-nvidia" && "dc-gpu-gaming-nvidia.conf" in payloads))
  {
    PolicyNames();
  }

  // ---------- the hosts file ----------

  /** The line has the address 127.0.1.1, blanks, and something after them. */
  predicate LoopbackLine(line: string) {
    |line| > 9 && line[..9] == "127.0.1.1"
    && exists k :: 9 < k < |line| && line[k] !in "\t\n\U{c}\r " && forall i :: 9 <= i < k ==> line[i] in " \t"
  }

  lemma LoopbackLines(line: string)
    ensures IsBootstrap(line) <==> LoopbackLine(line)
  {
    if IsBootstrap(line) {
      var k :| HostAt(LOOPBACK, line, k);
      assert forall i :: 9 <= i < k ==> Regex.In(Regex.Blank, line[i]);
    }
    if LoopbackLine(line) {
      var k :| 9 < k < |line| && line[k] !in "\t\n\U{c}\r " && forall i :: 9 <= i < k ==> line[i] in " \t";
      assert HostAt(LOOPBACK, line, k);
    }
  }

  /** With a hostname the installed hosts file has a 127.0.1.1 line, and every one reads
      the address, a tab, the name under .local and the name; without one it is left
      alone. */
  lemma HostInstalled(base: Recipe, system: Option<SystemStep>, gpu: Option<GpuStep>, payloads: map<string, string>,
                      etc: Etc, end: Etc)
    requires Fresh(base) && Post(Built(base, system, gpu), payloads, etc) == Written(end)
    ensures base.hostname == "" ==> end.hosts == etc.hosts
    ensures base.hostname != "" ==>
              && end.hosts.Some?
              && (exists line :: line in Split(end.hosts.value, '\n') && LoopbackLine(line))
              && forall line :: line in Split(end.hosts.value, '\n') && LoopbackLine(line) ==>
                   line == "127.0.1.1\t" + base.hostname + ".local " + base.hostname
  {
    var r := Built(base, system, gpu);
    FilesHoldChoices(base, system, gpu, payloads, etc);
    KeptHostname(base, system, gpu);
    if base.hostname != "" {
      HostLines(end, base.hostname);
    }
  }

  lemma KeptHostname(base: Recipe, system: Option<SystemStep>, gpu: Option<GpuStep>)
    ensures Built(base, system, gpu).hostname == base.hostname
  {
  }

  lemma HostLines(end: Etc, h: string)
    requires HoldsHost(end, h)
    ensures end.hosts.Some?
    ensures exists line :: line in Split(end.hosts.value, '\n') && LoopbackLine(line)
    ensures forall line :: line in Split(end.hosts.value, '\n') && LoopbackLine(line) ==>
              line == "127.0.1.1\t" + h + ".local " + h
  {
    forall line ensures IsBootstrap(line) <==> LoopbackLine(line) {
      LoopbackLines(line);
    }
    assert LOOPBACK + "\t" == "127.0.1.1\t";
    assert Bootstrap(h) == "127.0.1.1\t" + h + ".local " + h;
  }
}
