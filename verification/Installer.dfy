/** The installer's merges of the system, locale and GPU steps into the recipe. */
module Installer {
  import opened Text
  import opened Shapes

  const DEFAULT_MODEL := "pc105"
  const DEBIAN_USER_GROUPS := ["adm", "systemd-journal", "cdrom", "audio", "video", "plugdev", "netdev"]
  const ADMIN_GROUP := "sudo"

  /** The keys the system page writes; `None` is an absent key. */
  datatype SystemStep = SystemStep(
    rootPassword: Option<string>,
    sudo: Option<bool>,
    sshRootLogin: Option<bool>,
    locale: Option<string>,
    keyboard: Option<KeyboardChoice>)
  datatype KeyboardChoice = KeyboardChoice(model: Option<string>, layout: Option<string>, variant: Option<string>)

  datatype GpuStep = GpuStep(
    usage: Option<string>,
    nvidiaConsent: Option<bool>,
    nvidia: Option<bool>,
    imgref: Option<string>,
    selectedImage: Option<string>,
    sigEnforce: Option<bool>)

  datatype Keyboard = Keyboard(model: string, layout: string, variant: string)
  datatype User = User(username: string, groups: seq<string>)

  /** The recipe keys the merges and the post steps use; an absent string is empty, as
      fisherman reads it. */
  datatype Recipe = Recipe(
    hostname: string,
    imgref: string,
    rootPassword: string,
    sshRootLogin: Option<bool>,
    user: Option<User>,
    locale: string,
    keyboard: Option<Keyboard>,
    autoUpdate: Option<bool>,
    gpuUsage: string,
    nvidiaConsent: bool,
    gpuSet: string,
    sigEnforce: Option<bool>)

  const NO_SYSTEM := SystemStep(None, None, None, None, None)

  /** Python's truth value of a step dictionary: absent or empty is false. */
  predicate Given(system: Option<SystemStep>) {
    system.Some? && system.value != NO_SYSTEM
  }

  // ---------- user_groups ----------

  function Without(xs: seq<string>, x: string): seq<string> {
    if xs == [] then []
    else (if xs[0] == x then [] else [xs[0]]) + Without(xs[1..], x)
  }

  /** The wanted groups that are not there yet, in their order. */
  function Missing(wanted: seq<string>, there: seq<string>): seq<string> {
    if wanted == [] then []
    else (if wanted[0] in there then [] else [wanted[0]]) + Missing(wanted[1..], there)
  }

  function Grouped(admin: string, standard: seq<string>, base: seq<string>, wanted: bool): seq<string> {
    var groups := Without(base, admin);
    var all := groups + Missing(standard, groups);
    if wanted then [admin] + all else all
  }

  function UserGroups(base: seq<string>, sudo: bool): seq<string> {
    Grouped(ADMIN_GROUP, DEBIAN_USER_GROUPS, base, sudo)
  }

  // ---------- the merges ----------

  function ApplySystem(r: Recipe, system: Option<SystemStep>): Recipe {
    if !Given(system) then r
    else
      var s := system.value;
      r.(rootPassword := if s.rootPassword.GetOr("") != "" then s.rootPassword.value else r.rootPassword,
         sshRootLogin := if s.sshRootLogin.Some? then s.sshRootLogin else r.sshRootLogin,
         user := Regrouped(r.user, s.sudo.GetOr(true)))
  }

  /** The created user with its groups; without a name the user is left alone. */
  function Regrouped(user: Option<User>, sudo: bool): Option<User> {
    if user.Some? && user.value.username != ""
    then Some(user.value.(groups := UserGroups(user.value.groups, sudo)))
    else user
  }

  /** valid_keyboard. */
  ghost predicate PyKeyboard(k: Keyboard) {
    PyXkb(k.layout) && PyXkb(k.model) && (k.variant == "" || PyXkb(k.variant))
  }

  /** The choice with its defaults; an empty model is the default one. */
  function Completed(k: KeyboardChoice): Keyboard {
    Keyboard(if k.model.GetOr("") != "" then k.model.value else DEFAULT_MODEL, k.layout.GetOr(""), k.variant.GetOr(""))
  }

  ghost function ApplyLocale(r: Recipe, system: Option<SystemStep>): Recipe {
    if !Given(system) then r
    else
      var s := system.value;
      r.(locale := if s.locale.GetOr("") != "" && PyLocale(s.locale.value) then s.locale.value else r.locale,
         keyboard := if s.keyboard.Some? && s.keyboard.value.layout.GetOr("") != "" && PyKeyboard(Completed(s.keyboard.value))
                     then Some(Completed(s.keyboard.value)) else r.keyboard)
  }

  predicate IsUsage(usage: string) {
    usage in {"auto", "gaming", "ia"}
  }

  function SelectedSet(usage: string, nvidia: bool): string {
    var open := if usage == "auto" then "gaming" else usage;
    if nvidia then "gpu-" + open + "-nvidia" else "gpu-" + open
  }

  /** The set of each usage. */
  lemma SetNames()
    ensures SelectedSet("auto", false) == "gpu-gaming" && SelectedSet("auto", true) == "gpu-gaming-nvidia"
    ensures SelectedSet("gaming", false) == "gpu-gaming" && SelectedSet("gaming", true) == "gpu-gaming-nvidia"
    ensures SelectedSet("ia", false) == "gpu-ia" && SelectedSet("ia", true) == "gpu-ia-nvidia"
  {
    assert "gpu-" + "ia" == "gpu-ia" && "gpu-" + "gaming" == "gpu-gaming";
    assert "gpu-" + "ia" + "-nvidia" == "gpu-ia-nvidia" && "gpu-" + "gaming" + "-nvidia" == "gpu-gaming-nvidia";
  }

  /** The flag apply_gpu derives: the licence was accepted or the toggle was set. */
  function NvidiaFlag(g: GpuStep): bool {
    g.nvidiaConsent.GetOr(false) || g.nvidia.GetOr(false)
  }

  function BaseImage(g: GpuStep): string {
    if g.imgref.GetOr("") != "" then g.imgref.value else g.selectedImage.GetOr("")
  }

  /** The keys a usage choice writes. */
  function WithUsage(r: Recipe, g: GpuStep, usage: string): Recipe {
    r.(gpuUsage := usage,
       nvidiaConsent := g.nvidiaConsent.GetOr(false),
       gpuSet := SelectedSet(usage, NvidiaFlag(g)),
       imgref := if NvidiaFlag(g) && BaseImage(g) != "" then BaseImage(g) + "-nvidia" else r.imgref)
  }

  function ApplyGpu(r: Recipe, gpu: Option<GpuStep>): Recipe {
    if gpu.None? then r
    else
      var g := gpu.value;
      var chosen := if g.usage.Some? && IsUsage(g.usage.value) then WithUsage(r, g, g.usage.value) else r;
      if g.sigEnforce.Some? then chosen.(sigEnforce := g.sigEnforce) else chosen
  }

  // ---------- merge algebra ----------

  lemma {:induction false} WithoutExact(xs: seq<string>, x: string)
    ensures x !in Without(xs, x)
    ensures forall y :: y in Without(xs, x) <==> y in xs && y != x
    ensures x !in xs ==> Without(xs, x) == xs
  {
    if xs == [] {
    } else {
      WithoutExact(xs[1..], x);
    }
  }

  lemma {:induction false} WithoutAppend(xs: seq<string>, ys: seq<string>, x: string)
    ensures Without(xs + ys, x) == Without(xs, x) + Without(ys, x)
  {
    if xs == [] {
      assert xs + ys == ys;
    } else {
      WithoutAppend(xs[1..], ys, x);
      TailAppend(xs, ys);
      Associative(if xs[0] == x then [] else [xs[0]], Without(xs[1..], x), Without(ys, x));
    }
  }

  lemma {:induction false} MissingExact(wanted: seq<string>, there: seq<string>)
    ensures forall y :: y in Missing(wanted, there) <==> y in wanted && y !in there
    ensures (forall y :: y in wanted ==> y in there) ==> Missing(wanted, there) == []
  {
    if wanted == [] {
    } else {
      MissingExact(wanted[1..], there);
    }
  }

  lemma GroupedAbsorbs(admin: string, standard: seq<string>, base: seq<string>, first: bool, second: bool)
    requires admin !in standard
    ensures Grouped(admin, standard, Grouped(admin, standard, base, first), second) == Grouped(admin, standard, base, second)
  {
    var groups := Without(base, admin);
    var all := groups + Missing(standard, groups);
    WithoutExact(base, admin);
    MissingExact(standard, groups);
    WithoutExact(all, admin);
    WithoutAppend([admin], all, admin);
    assert Without([admin], admin) == [];
    assert Without(Grouped(admin, standard, base, first), admin) == all;
    MissingExact(standard, all);
    assert all + [] == all;
  }

  lemma StandardGroups()
    ensures ADMIN_GROUP !in DEBIAN_USER_GROUPS && NoDuplicates(DEBIAN_USER_GROUPS)
  {
    assert ADMIN_GROUP[0] == 's' && ADMIN_GROUP[1] == 'u' && DEBIAN_USER_GROUPS[1][1] == 'y';
    assert DEBIAN_USER_GROUPS[0] == "adm" && "audio"[1] == 'u' && "adm"[1] == 'd';
  }

  /** Regrouping after any earlier choice is grouping the base directly; in particular
      grouping twice is grouping once. */
  lemma UserGroupsAbsorb(base: seq<string>, first: bool, second: bool)
    ensures UserGroups(UserGroups(base, first), second) == UserGroups(base, second)
  {
    StandardGroups();
    GroupedAbsorbs(ADMIN_GROUP, DEBIAN_USER_GROUPS, base, first, second);
  }

  predicate NoDuplicates(xs: seq<string>) {
    forall i, j :: 0 <= i < j < |xs| ==> xs[i] != xs[j]
  }

  lemma GroupedMembers(admin: string, standard: seq<string>, base: seq<string>, wanted: bool, g: string)
    requires admin !in standard
    ensures g in Grouped(admin, standard, base, wanted) <==>
            if g == admin then wanted else g in base || g in standard
  {
    WithoutExact(base, admin);
    MissingExact(standard, Without(base, admin));
  }

  /** The groups are the base without the admin group, the Debian groups, and the admin
      group exactly when wanted. */
  lemma UserGroupsMembers(base: seq<string>, sudo: bool, g: string)
    ensures g in UserGroups(base, sudo) <==>
            if g == ADMIN_GROUP then sudo else g in base || g in DEBIAN_USER_GROUPS
  {
    StandardGroups();
    GroupedMembers(ADMIN_GROUP, DEBIAN_USER_GROUPS, base, sudo, g);
  }

  lemma {:induction false} MissingDistinct(wanted: seq<string>, there: seq<string>)
    requires NoDuplicates(wanted)
    ensures NoDuplicates(Missing(wanted, there))
  {
    if wanted == [] {
    } else {
      MissingDistinct(wanted[1..], there);
      MissingExact(wanted[1..], there);
      var rest := Missing(wanted[1..], there);
      assert wanted[0] !in rest;
    }
  }

  lemma ConcatDistinct(xs: seq<string>, ys: seq<string>)
    requires NoDuplicates(ys) && forall y :: y in ys ==> y !in xs
    ensures NoDuplicates(xs + ys) <==> NoDuplicates(xs)
  {
    var all := xs + ys;
    if NoDuplicates(all) {
      assert forall i :: 0 <= i < |xs| ==> xs[i] == all[i];
    }
    if NoDuplicates(xs) {
      forall i, j | 0 <= i < j < |all| ensures all[i] != all[j] {
        if i < |xs| <= j {
          assert all[j] == ys[j - |xs|] && all[j] in ys && all[i] in xs;
        }
      }
    }
  }

  lemma HeadDistinct(x: string, xs: seq<string>)
    requires x !in xs
    ensures NoDuplicates([x] + xs) <==> NoDuplicates(xs)
  {
    var r := [x] + xs;
    if NoDuplicates(r) {
      forall i, j | 0 <= i < j < |xs| ensures xs[i] != xs[j] {
        assert r[i + 1] != r[j + 1];
      }
    }
  }

  /** The result has no duplicates exactly when the base, the admin group left out, had
      none: duplicates of the base are not removed. */
  lemma UserGroupsDistinct(base: seq<string>, sudo: bool)
    ensures NoDuplicates(UserGroups(base, sudo)) <==> NoDuplicates(Without(base, ADMIN_GROUP))
  {
    StandardGroups();
    GroupedDistinct(ADMIN_GROUP, DEBIAN_USER_GROUPS, base, sudo);
  }

  /** A base that repeats a group keeps the repetition. */
  lemma DuplicatesKept()
    ensures !NoDuplicates(UserGroups(["x", "x"], false))
  {
    UserGroupsDistinct(["x", "x"], false);
    assert "x"[0] != ADMIN_GROUP[0];
    Repeated("x", ADMIN_GROUP);
  }

  lemma Repeated(x: string, admin: string)
    requires x != admin
    ensures !NoDuplicates(Without([x, x], admin))
  {
    assert [x, x][1..] == [x] && [x][1..] == [];
    assert Without([x], admin) == [x] && Without([x, x], admin) == [x] + [x] == [x, x];
    assert [x, x][0] == [x, x][1];
  }

  lemma GroupedDistinct(admin: string, standard: seq<string>, base: seq<string>, wanted: bool)
    requires admin !in standard && NoDuplicates(standard)
    ensures NoDuplicates(Grouped(admin, standard, base, wanted)) <==> NoDuplicates(Without(base, admin))
  {
    var groups := Without(base, admin);
    WithoutExact(base, admin);
    MissingExact(standard, groups);
    MissingDistinct(standard, groups);
    ConcatDistinct(groups, Missing(standard, groups));
    HeadDistinct(admin, groups + Missing(standard, groups));
  }

  /** Each merge is idempotent. */
  lemma SystemMergeIdempotent(r: Recipe, system: Option<SystemStep>)
    ensures ApplySystem(ApplySystem(r, system), system) == ApplySystem(r, system)
  {
    if Given(system) && r.user.Some? && r.user.value.username != "" {
      var sudo := system.value.sudo.GetOr(true);
      UserGroupsAbsorb(r.user.value.groups, sudo, sudo);
    }
  }

  lemma LocaleMergeIdempotent(r: Recipe, system: Option<SystemStep>)
    ensures ApplyLocale(ApplyLocale(r, system), system) == ApplyLocale(r, system)
  {
  }

  lemma GpuMergeIdempotent(r: Recipe, gpu: Option<GpuStep>)
    ensures ApplyGpu(ApplyGpu(r, gpu), gpu) == ApplyGpu(r, gpu)
  {
  }

  /** The three merges may run in any order. */
  lemma SystemLocaleCommute(r: Recipe, system: Option<SystemStep>)
    ensures ApplySystem(ApplyLocale(r, system), system) == ApplyLocale(ApplySystem(r, system), system)
  {
  }

  lemma UsageFrame(r: Recipe, password: string, ssh: Option<bool>, user: Option<User>, g: GpuStep, usage: string)
    ensures WithUsage(r.(rootPassword := password, sshRootLogin := ssh, user := user), g, usage)
            == WithUsage(r, g, usage).(rootPassword := password, sshRootLogin := ssh, user := user)
  {
  }

  lemma GpuFrame(r: Recipe, password: string, ssh: Option<bool>, user: Option<User>, gpu: Option<GpuStep>)
    ensures ApplyGpu(r.(rootPassword := password, sshRootLogin := ssh, user := user), gpu)
            == ApplyGpu(r, gpu).(rootPassword := password, sshRootLogin := ssh, user := user)
    ensures ApplyGpu(r, gpu).user == r.user && ApplyGpu(r, gpu).rootPassword == r.rootPassword
    ensures ApplyGpu(r, gpu).sshRootLogin == r.sshRootLogin
  {
    if gpu.Some? && gpu.value.usage.Some? {
      UsageFrame(r, password, ssh, user, gpu.value, gpu.value.usage.value);
    }
  }

  lemma SystemGpuCommute(r: Recipe, system: Option<SystemStep>, gpu: Option<GpuStep>)
    ensures ApplySystem(ApplyGpu(r, gpu), system) == ApplyGpu(ApplySystem(r, system), gpu)
  {
    var s := ApplySystem(r, system);
    GpuFrame(r, s.rootPassword, s.sshRootLogin, s.user, gpu);
  }

  lemma LocaleGpuCommute(r: Recipe, system: Option<SystemStep>, gpu: Option<GpuStep>)
    ensures ApplyLocale(ApplyGpu(r, gpu), system) == ApplyGpu(ApplyLocale(r, system), gpu)
  {
  }

  // ---------- the recipe changed in place ----------

  class RecipeDict {
    var data: Recipe

    constructor (data: Recipe)
      ensures this.data == data
    {
      this.data := data;
    }

    method MergeSystem(system: Option<SystemStep>)
      modifies this
      ensures data == ApplySystem(old(data), system)
    {
      if system.None? || system.value == NO_SYSTEM { return; }
      var s := system.value;
      if s.rootPassword.Some? && s.rootPassword.value != "" {
        data := data.(rootPassword := s.rootPassword.value);
      }
      if s.sshRootLogin.Some? {
        data := data.(sshRootLogin := s.sshRootLogin);
      }
      if data.user.Some? && data.user.value.username != "" {
        var groups := GroupsOf(data.user.value.groups, s.sudo.GetOr(true));
        data := data.(user := Some(data.user.value.(groups := groups)));
      }
    }

    method MergeLocale(system: Option<SystemStep>)
      modifies this
      ensures data == ApplyLocale(old(data), system)
    {
      if system.None? || system.value == NO_SYSTEM { return; }
      var s := system.value;
      if s.locale.Some? && s.locale.value != "" {
        var ok := ValidLocale(s.locale.value);
        if ok { data := data.(locale := s.locale.value); }
      }
      if s.keyboard.Some? && s.keyboard.value.layout.GetOr("") != "" {
        var k := Completed(s.keyboard.value);
        var layout := ValidXkb(k.layout);
        var model := ValidXkb(k.model);
        var variant := ValidXkb(k.variant);
        if layout && model && (k.variant == "" || variant) {
          data := data.(keyboard := Some(k));
        }
      }
    }

    method MergeGpu(gpu: Option<GpuStep>)
      modifies this
      ensures data == ApplyGpu(old(data), gpu)
    {
      if gpu.None? { return; }
      var g := gpu.value;
      if g.usage.Some? && IsUsage(g.usage.value) {
        var nvidia := g.nvidiaConsent.GetOr(false) || g.nvidia.GetOr(false);
        data := data.(gpuUsage := g.usage.value, nvidiaConsent := g.nvidiaConsent.GetOr(false));
        data := data.(gpuSet := SelectedSet(g.usage.value, nvidia));
        if nvidia && BaseImage(g) != "" {
          data := data.(imgref := BaseImage(g) + "-nvidia");
        }
      }
      if g.sigEnforce.Some? {
        data := data.(sigEnforce := g.sigEnforce);
      }
    }
  }

  /** The list without one group. */
  method Keep(base: seq<string>, admin: string) returns (groups: seq<string>)
    ensures groups == Without(base, admin)
  {
    groups := [];
    for i := 0 to |base|
      invariant groups == Without(base[..i], admin)
    {
      assert base[..i + 1] == base[..i] + [base[i]];
      WithoutAppend(base[..i], [base[i]], admin);
      WithoutOne(base[i], admin);
      if base[i] != admin { groups := groups + [base[i]]; }
    }
    assert base[..|base|] == base;
  }

  lemma WithoutOne(x: string, admin: string)
    ensures Without([x], admin) == if x == admin then [] else [x]
  {
    assert [x][1..] == [];
  }

  lemma MissingStep(wanted: seq<string>, there: seq<string>, i: nat)
    requires i < |wanted|
    ensures Missing(wanted[i..], there) == (if wanted[i] in there then [] else [wanted[i]]) + Missing(wanted[i + 1..], there)
  {
    assert wanted[i..][1..] == wanted[i + 1..];
  }

  /** The groups that are not there yet, appended in order. */
  method AddMissing(there: seq<string>, wanted: seq<string>) returns (groups: seq<string>)
    ensures groups == there + Missing(wanted, there)
  {
    groups := there;
    for i := 0 to |wanted|
      invariant groups + Missing(wanted[i..], there) == there + Missing(wanted, there)
    {
      MissingStep(wanted, there, i);
      Associative(groups, [wanted[i]], Missing(wanted[i + 1..], there));
      if wanted[i] !in there { groups := groups + [wanted[i]]; }
    }
  }

  /** user_groups as its list operations: filter, extend, insert at the front. */
  method GroupsOf(base: seq<string>, sudo: bool) returns (groups: seq<string>)
    ensures groups == UserGroups(base, sudo)
  {
    groups := Keep(base, ADMIN_GROUP);
    groups := AddMissing(groups, DEBIAN_USER_GROUPS);
    if sudo { groups := [ADMIN_GROUP] + groups; }
  }
}
