/** From the installer's steps to the files of the installed system. */
module EndToEnd {
  import opened Text
  import opened Shapes
  import opened Hosts
  import opened Locale
  import opened Installer
  import opened Fisherman
  import DcGpu
  import Layouts = Keyboard

  /** The recipe the processor starts from: none of the merged keys set, a hostname the
      system page let through or none. */
  ghost predicate Fresh(r: Recipe) {
    && r.locale == "" && r.keyboard == None && r.gpuUsage == "" && r.gpuSet == ""
    && (r.hostname == "" || PyHostname(r.hostname))
  }

  ghost function Built(base: Recipe, system: Option<SystemStep>, gpu: Option<GpuStep>): Recipe {
    ApplyGpu(ApplyLocale(ApplySystem(base, system), system), gpu)
  }

  /** No name in the recipe ends in a newline. */
  predicate NewlineFree(r: Recipe) {
    && !EndsInNewline(r.hostname) && !EndsInNewline(r.locale)
    && (r.keyboard.Some? ==>
          && !EndsInNewline(r.keyboard.value.model) && !EndsInNewline(r.keyboard.value.layout)
          && !EndsInNewline(r.keyboard.value.variant))
  }

  /** The loader policies of the four sets, as the live image ships them. */
  predicate ShipsPolicies(payloads: map<string, string>) {
    forall s :: s in {"gpu-ia", "gpu-gaming", "gpu-ia-nvidia", "gpu-gaming-nvidia"} ==> PolicyName(s) in payloads
  }

  /** What the merges put in a fresh recipe. */
  ghost predicate Checked(r: Recipe) {
    && (r.hostname == "" || PyHostname(r.hostname))
    && (r.locale == "" || PyLocale(r.locale))
    && (r.keyboard.Some? ==> PyKeyboard(r.keyboard.value) && r.keyboard.value.layout != "" && r.keyboard.value.model != "")
    && (if r.gpuUsage == "" then r.gpuSet == ""
        else IsUsage(r.gpuUsage) && exists nvidia :: r.gpuSet == SelectedSet(r.gpuUsage, nvidia))
  }

  lemma BuiltIsChecked(base: Recipe, system: Option<SystemStep>, gpu: Option<GpuStep>)
    requires Fresh(base)
    ensures Checked(Built(base, system, gpu))
  {
    var a := ApplySystem(base, system);
    assert a.hostname == base.hostname && a.locale == base.locale && a.keyboard == base.keyboard;
    assert a.gpuUsage == base.gpuUsage && a.gpuSet == base.gpuSet;
    LocaleChecked(a, system);
    GpuChecked(ApplyLocale(a, system), gpu);
  }

  lemma LocaleChecked(a: Recipe, system: Option<SystemStep>)
    requires Checked(a) && a.keyboard == None
    ensures Checked(ApplyLocale(a, system))
  {
  }

  lemma GpuChecked(b: Recipe, gpu: Option<GpuStep>)
    requires Checked(b) && b.gpuUsage == ""
    ensures Checked(ApplyGpu(b, gpu))
  {
    if gpu.Some? && gpu.value.usage.Some? && IsUsage(gpu.value.usage.value) {
      assert ApplyGpu(b, gpu).gpuSet == SelectedSet(gpu.value.usage.value, NvidiaFlag(gpu.value));
    }
  }

  lemma SelectedSetKnown(usage: string, nvidia: bool)
    requires IsUsage(usage)
    ensures SelectedSet(usage, nvidia) in {"gpu-ia", "gpu-gaming", "gpu-ia-nvidia", "gpu-gaming-nvidia"}
    ensures SelectedSet(usage, nvidia) != ""
  {
    assert "gpu-" + "ia" == "gpu-ia" && "gpu-" + "gaming" == "gpu-gaming";
    assert "gpu-" + "ia" + "-nvidia" == "gpu-ia-nvidia" && "gpu-" + "gaming" + "-nvidia" == "gpu-gaming-nvidia";
  }

  lemma GpuNeverFatal(r: Recipe, payloads: map<string, string>, etc: Etc)
    requires ShipsPolicies(payloads) && (r.gpuUsage == "" ==> r.gpuSet == "")
    requires r.gpuUsage != "" ==> IsUsage(r.gpuUsage) && exists nvidia :: r.gpuSet == SelectedSet(r.gpuUsage, nvidia)
    ensures PostGpu(r, payloads, etc).Written?
  {
    if r.gpuUsage != "" {
      var nvidia :| r.gpuSet == SelectedSet(r.gpuUsage, nvidia);
      SelectedSetKnown(r.gpuUsage, nvidia);
    }
  }

  lemma SystemFatalExactly(r: Recipe, etc: Etc)
    requires Checked(r)
    ensures PostSystem(r, etc).Written? <==> NewlineFree(r)
  {
    if r.hostname != "" { HostnameVersus(r.hostname); }
    if r.locale != "" { LocaleVersus(r.locale); }
    if r.keyboard.Some? {
      var k := r.keyboard.value;
      XkbVersus(k.model);
      XkbVersus(k.layout);
      XkbVersus(k.variant);
    }
  }

  /** The recipe the installer builds is accepted by every post step, exactly when no
      name in it ends in a newline. */
  lemma AcceptedExactly(base: Recipe, system: Option<SystemStep>, gpu: Option<GpuStep>, payloads: map<string, string>, etc: Etc)
    requires Fresh(base) && ShipsPolicies(payloads)
    ensures Post(Built(base, system, gpu), payloads, etc).Written? <==> NewlineFree(Built(base, system, gpu))
  {
    var r := Built(base, system, gpu);
    BuiltIsChecked(base, system, gpu);
    SystemFatalExactly(r, etc);
    if NewlineFree(r) {
      GpuNeverFatal(r, payloads, PostSystem(r, etc).etc);
    }
  }

  /** No string of the step ends in a newline. */
  predicate CleanStep(system: Option<SystemStep>) {
    system.Some? ==>
      && !EndsInNewline(system.value.locale.GetOr(""))
      && (system.value.keyboard.Some? ==>
            var k := system.value.keyboard.value;
            !EndsInNewline(k.model.GetOr("")) && !EndsInNewline(k.layout.GetOr("")) && !EndsInNewline(k.variant.GetOr("")))
  }

  /** For all step results whose strings do not end in a newline, nothing the installer
      accepted is refused after the disk was written. */
  lemma CleanStepsAccepted(base: Recipe, system: Option<SystemStep>, gpu: Option<GpuStep>, payloads: map<string, string>, etc: Etc)
    requires Fresh(base) && ShipsPolicies(payloads)
    requires !EndsInNewline(base.hostname) && CleanStep(system)
    ensures Post(Built(base, system, gpu), payloads, etc).Written?
  {
    var a := ApplySystem(base, system);
    assert a.hostname == base.hostname && a.locale == base.locale && a.keyboard == base.keyboard;
    CleanLocale(a, system);
    GpuKeepsNames(ApplyLocale(a, system), gpu);
    AcceptedExactly(base, system, gpu, payloads, etc);
  }

  lemma CleanLocale(a: Recipe, system: Option<SystemStep>)
    requires NewlineFree(a) && CleanStep(system)
    ensures NewlineFree(ApplyLocale(a, system))
  {
    assert !EndsInNewline(DEFAULT_MODEL);
  }

  lemma GpuKeepsNames(b: Recipe, gpu: Option<GpuStep>)
    ensures var r := ApplyGpu(b, gpu);
            r.hostname == b.hostname && r.locale == b.locale && r.keyboard == b.keyboard
  {
  }

  /** The choices the system page can return: a stripped hostname, a listed locale and a
      listed keyboard, or none of them. */
  ghost predicate FromPage(typed: string, hostname: string, s: SystemStep, supported: string, rules: seq<string>) {
    && hostname == Strip(typed) && Layouts.Consistent(Layouts.Read(rules))
    && (s.locale.Some? ==> IsOffered(supported, s.locale.value))
    && (s.keyboard.Some? ==>
          exists e :: e in Layouts.Entries(Layouts.Read(rules))
                      && s.keyboard.value == KeyboardChoice(Some(DEFAULT_MODEL), Some(e.layout), Some(e.variant)))
  }

  lemma StrippedEnd(typed: string)
    ensures !EndsInNewline(Strip(typed))
  {
    assert IsSpace('\n');
  }

  /** What is chosen on the system page from the lists of any live system is never
      refused after the disk was written. */
  lemma PageChoicesAccepted(base: Recipe, typed: string, s: SystemStep, supported: string, rules: seq<string>,
                            gpu: Option<GpuStep>, payloads: map<string, string>, etc: Etc)
    requires Fresh(base) && ShipsPolicies(payloads) && FromPage(typed, base.hostname, s, supported, rules)
    ensures Post(Built(base, Some(s), gpu), payloads, etc).Written?
  {
    StrippedEnd(typed);
    if s.locale.Some? {
      OfferedPasses(supported, s.locale.value);
      LocaleVersus(s.locale.value);
    }
    if s.keyboard.Some? {
      var e :| e in Layouts.Entries(Layouts.Read(rules))
               && s.keyboard.value == KeyboardChoice(Some(DEFAULT_MODEL), Some(e.layout), Some(e.variant));
      Layouts.EntriesPass(rules, e);
      XkbVersus(e.layout);
      XkbVersus(e.variant);
      assert !EndsInNewline(DEFAULT_MODEL);
    }
    CleanStepsAccepted(base, Some(s), gpu, payloads, etc);
  }

  /** A locale choice that the installer accepts and fisherman refuses, after the disk
      was written. */
  lemma NewlineRefused(etc: Etc)
    ensures PyLocale("fr.U\n") && WriteLocale(etc, "fr.U\n").Fatal?
  {
    var s, t := "fr.U\n", "fr.U";
    LocaleVersus(s);
    assert LocaleAt(t, 2, 2, 4);
    LocaleMatches(Regex.Go, t, 2, 2, 4);
    Regex.GoAnchored(LOCALE_BODY, t);
    assert s[..|s| - 1] == t;
  }

  // ---------- the files hold the choices ----------

  /** A bootstrap line exists, and every one names the host. */
  ghost predicate HoldsHost(etc: Etc, hostname: string) {
    && etc.hosts.Some?
    && (exists line :: line in Split(etc.hosts.value, '\n') && IsBootstrap(line))
    && forall line :: line in Split(etc.hosts.value, '\n') && IsBootstrap(line) ==> line == Bootstrap(hostname)
  }

  lemma RewriteHolds(etc: Etc, text: string, hostname: string)
    requires GoHostname(hostname) && etc.hosts == Some(Rewrite(hostname, text))
    ensures HoldsHost(etc, hostname)
  {
    HostnameVersus(hostname);
    BootstrapNamesHost(hostname, text);
  }

  ghost predicate HoldsLocale(etc: Etc, locale: string) {
    && etc.lang == Some("LANG=" + locale + "\n")
    && etc.localeGen.Some?
    && forall name :: IsOffered(etc.localeGen.value, name) <==> name == locale && Charset(locale) == "UTF-8"
  }

  ghost predicate HoldsKeyboard(etc: Etc, k: Keyboard) {
    && etc.keyboard.Some?
    && var lines := Split(etc.keyboard.value, '\n');
       && ReadVar(lines, "XKBMODEL") == Some(k.model)
       && ReadVar(lines, "XKBLAYOUT") == Some(k.layout)
       && ReadVar(lines, "XKBVARIANT") == Some(k.variant)
  }

  /** dc-gpu, at the first boot, reads the usage profile back. */
  predicate HoldsUsage(etc: Etc, usage: string) {
    etc.usage.Some? && DcGpu.Current(DcGpu.State(etc.usage, None, None, None, None)) == usage
  }

  /** The update timer is masked exactly when updates were switched off, the sshd policy is
      the choice made, and the loader policy delivered is the set's. */
  predicate HoldsPolicies(end: Etc, etc: Etc, r: Recipe, payloads: map<string, string>) {
    && end.updateTimer == (if r.autoUpdate == Some(false) then Some("/dev/null") else etc.updateTimer)
    && end.sshPolicy == (if r.sshRootLogin == None then etc.sshPolicy
                         else if r.sshRootLogin == Some(true) then Some("PermitRootLogin yes\n") else Some("PermitRootLogin no\n"))
    && (if r.gpuSet == "" then end.modprobe == etc.modprobe
        else PolicyName(r.gpuSet) in payloads
             && end.modprobe == etc.modprobe[PolicyName(r.gpuSet) := payloads[PolicyName(r.gpuSet)]])
  }

  lemma UsageReadsBack(usage: string)
    requires IsUsage(usage)
    ensures Chomp(usage + "\n") == usage
  {
    assert (usage + "\n")[..|usage|] == usage;
    assert usage[|usage| - 1] != '\n';
  }

  lemma SystemFiles(r: Recipe, etc: Etc)
    requires Checked(r) && PostSystem(r, etc).Written?
    ensures var end := PostSystem(r, etc).etc;
            && (if r.hostname != "" then HoldsHost(end, r.hostname) else end.hosts == etc.hosts)
            && (if r.locale != "" then HoldsLocale(end, r.locale) else end.lang == etc.lang && end.localeGen == etc.localeGen)
            && (if r.keyboard.Some? then HoldsKeyboard(end, r.keyboard.value) else end.keyboard == etc.keyboard)
            && end.usage == etc.usage && end.consent == etc.consent && end.gpuSet == etc.gpuSet
            && end.updateTimer == etc.updateTimer && end.sshPolicy == etc.sshPolicy && end.modprobe == etc.modprobe
  {
    if r.hostname != "" {
      RewriteHolds(PostSystem(r, etc).etc, etc.hosts.GetOr(""), r.hostname);
    }
    if r.locale != "" {
      GenFileReadsBack(r.locale);
    }
    if r.keyboard.Some? {
      KeyboardFileReadsBack(r.keyboard.value.model, r.keyboard.value.layout, r.keyboard.value.variant);
    }
  }

  lemma PoliciesDelivered(r: Recipe, payloads: map<string, string>, etc: Etc)
    requires PostGpu(r, payloads, etc).Written?
    ensures HoldsPolicies(PostGpu(r, payloads, etc).etc, etc, r, payloads)
  {
    var m := if r.autoUpdate == Some(false) then DisableAutoUpdate(etc).etc else etc;
    var a := if r.sshRootLogin.Some? then WriteSshPolicy(m, r.sshRootLogin.value).etc else m;
    assert "PermitRootLogin " + "yes" + "\n" == "PermitRootLogin yes\n" && "PermitRootLogin " + "no" + "\n" == "PermitRootLogin no\n";
    assert a.modprobe == etc.modprobe;
  }

  lemma GpuFiles(r: Recipe, payloads: map<string, string>, etc: Etc)
    requires Checked(r) && PostGpu(r, payloads, etc).Written?
    ensures var end := PostGpu(r, payloads, etc).etc;
            && end.hosts == etc.hosts && end.lang == etc.lang && end.localeGen == etc.localeGen && end.keyboard == etc.keyboard
            && (if r.gpuUsage != "" then HoldsUsage(end, r.gpuUsage) && end.gpuSet == Some(r.gpuSet + "\n")
                else end.usage == etc.usage && end.gpuSet == etc.gpuSet)
            && (end.consent == if r.gpuUsage != "" && r.nvidiaConsent then Some("accepted-at-install\n") else etc.consent)
            && HoldsPolicies(end, etc, r, payloads)
  {
    PoliciesDelivered(r, payloads, etc);
    if r.gpuUsage != "" {
      UsageReadsBack(r.gpuUsage);
      var nvidia :| r.gpuSet == SelectedSet(r.gpuUsage, nvidia);
      SelectedSetKnown(r.gpuUsage, nvidia);
    }
  }

  /** After the post steps the files hold exactly the recipe's choices; a choice that was
      not made leaves its files alone. */
  lemma FilesHoldChoices(base: Recipe, system: Option<SystemStep>, gpu: Option<GpuStep>, payloads: map<string, string>, etc: Etc)
    requires Fresh(base) && Post(Built(base, system, gpu), payloads, etc).Written?
    ensures var r, end := Built(base, system, gpu), Post(Built(base, system, gpu), payloads, etc).etc;
            && (if r.hostname != "" then HoldsHost(end, r.hostname) else end.hosts == etc.hosts)
            && (if r.locale != "" then HoldsLocale(end, r.locale) else end.lang == etc.lang && end.localeGen == etc.localeGen)
            && (if r.keyboard.Some? then HoldsKeyboard(end, r.keyboard.value) else end.keyboard == etc.keyboard)
            && (if r.gpuUsage != "" then HoldsUsage(end, r.gpuUsage) && end.gpuSet == Some(r.gpuSet + "\n")
                else end.usage == etc.usage && end.gpuSet == etc.gpuSet)
            && (end.consent == if r.gpuUsage != "" && r.nvidiaConsent then Some("accepted-at-install\n") else etc.consent)
            && HoldsPolicies(end, etc, r, payloads)
  {
    var r := Built(base, system, gpu);
    BuiltIsChecked(base, system, gpu);
    SystemFiles(r, etc);
    var mid := PostSystem(r, etc).etc;
    GpuFiles(r, payloads, mid);
    assert r.hostname != "" ==> HoldsHost(mid, r.hostname);
  }
}
