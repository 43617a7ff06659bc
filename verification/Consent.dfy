/** The privileged helpers of the live image and the choice the installer stages through
    them. */
module Consent {
  import opened Text
  import opened Catalog
  import opened OstreeBase
  import opened Installer

  const ACCEPT_WORD := "ACCEPT"

  /** The files of /run/bootc-installer; `accepted` is the consent file. */
  datatype Session = Session(
    accepted: bool,
    usage: Option<string>,
    gpuSet: Option<string>,
    base: Option<string>,
    derived: Option<string>,
    engine: Option<string>)

  /** What the helpers find: the recipe's catalog (`None` when unreadable), the licence
      text, the derive engine and the apt2ostree tool. */
  datatype Env = Env(catalog: Option<seq<Image>>, licenceText: bool, engine: string, tool: bool)

  /** The helper commands that touch the session. `typed` is the line read on the console;
      an empty `base` argument counts as none. */
  datatype Command =
    | Accept(scripted: bool, typed: string)
    | Usage(usage: string)
    | Gate(imgref: string)
    | SetName(name: string)
    | Base(ref: string)
    | Derive(name: string, base: string)

  predicate IsSet(name: string) {
    name in {"gpu-ia", "gpu-gaming", "gpu-ia-nvidia", "gpu-gaming-nvidia"}
  }

  predicate Derivable(name: string) {
    IsSet(name) && EndsWith(name, "-nvidia")
  }

  /** cmd_derive; `tools` tells whether every foreign program it runs succeeds. */
  function DeriveImage(env: Env, st: Session, name: string, base: string, tools: bool): (Session, bool) {
    var from := if base != "" then base else ReadBack(st.base);
    if !Derivable(name) then (st, false)
    else if env.engine == "apt2ostree" then
      if !env.tool || Parse(from).None? || !tools then (st, false)
      else (st.(engine := Some(FileOf("apt2ostree")),
                derived := Some(FileOf(Print(Parse(from).value.0, DerivedRef(name))))), true)
    else if env.engine == "podman" then
      if from == "" || !tools then (st, false)
      else (st.(derived := Some(FileOf(from + "-nvidia"))), true)
    else (st, false)
  }

  /** One helper command: the new session and whether it exits with success. */
  function Exec(env: Env, st: Session, c: Command, tools: bool): (Session, bool) {
    match c
    case Accept(scripted, typed) =>
      if scripted || (env.licenceText && Chomp(typed) == ACCEPT_WORD)
      then (st.(accepted := true), true) else (st, false)
    case Usage(u) => if IsUsage(u) then (st.(usage := Some(FileOf(u))), true) else (st, false)
    case Gate(imgref) =>
      if env.catalog.None? then (st, false)
      else (st, !HelperRequires(env.catalog.value, imgref) || st.accepted)
    case SetName(name) => if IsSet(name) then (st.(gpuSet := Some(FileOf(name))), true) else (st, false)
    case Base(ref) => (st.(base := Some(FileOf(ref))), true)
    case Derive(name, base) => DeriveImage(env, st, name, base, tools)
  }

  /** How one privileged call goes: not authorised, run (with its programs succeeding or
      not), or run with the caller seeing a failure such as a timeout. */
  datatype Fate = Denied | Runs(tools: bool) | Lost(tools: bool)

  function Call(env: Env, st: Session, c: Command, fate: Fate): (Session, bool) {
    match fate
    case Denied => (st, false)
    case Runs(tools) => Exec(env, st, c, tools)
    case Lost(tools) => (Exec(env, st, c, tools).0, false)
  }

  // ---------- every sequence of commands ----------

  datatype Event = Event(env: Env, c: Command, fate: Fate)

  function Replay(st: Session, events: seq<Event>): Session
    decreases |events|
  {
    if events == [] then st
    else Replay(Call(events[0].env, st, events[0].c, events[0].fate).0, events[1..])
  }

  ghost predicate LegalUsage(file: Option<string>) {
    file.Some? ==> exists u :: IsUsage(u) && file.value == FileOf(u)
  }

  ghost predicate LegalSet(file: Option<string>) {
    file.Some? ==> exists s :: IsSet(s) && file.value == FileOf(s)
  }

  /** Recorded usage and set are absent or legal. */
  ghost predicate Legal(st: Session) {
    LegalUsage(st.usage) && LegalSet(st.gpuSet)
  }

  lemma DeriveKeeps(env: Env, st: Session, name: string, base: string, tools: bool)
    ensures var (end, ok) := DeriveImage(env, st, name, base, tools);
            && end.usage == st.usage && end.gpuSet == st.gpuSet && end.accepted == st.accepted
            && (!ok ==> end == st)
  {
  }

  lemma ExecKeeps(env: Env, st: Session, c: Command, tools: bool)
    requires Legal(st)
    ensures var (end, ok) := Exec(env, st, c, tools);
            Legal(end) && (st.accepted ==> end.accepted) && (!ok ==> end == st)
  {
    match c {
      case Accept(scripted, typed) =>
      case Usage(u) =>
        assert IsUsage(u) ==> LegalUsage(Some(FileOf(u)));
      case Gate(imgref) =>
      case SetName(name) =>
        assert IsSet(name) ==> LegalSet(Some(FileOf(name)));
      case Base(ref) =>
      case Derive(name, base) =>
        DeriveKeeps(env, st, name, base, tools);
    }
  }

  /** A refused command changes no recorded value; any command keeps the session legal
      and the consent. */
  lemma CommandKeeps(env: Env, st: Session, c: Command, fate: Fate)
    requires Legal(st)
    ensures Legal(Call(env, st, c, fate).0)
    ensures st.accepted ==> Call(env, st, c, fate).0.accepted
    ensures !fate.Lost? && !Call(env, st, c, fate).1 ==> Call(env, st, c, fate).0 == st
  {
    if !fate.Denied? {
      ExecKeeps(env, st, c, fate.tools);
    }
  }

  /** Over every sequence of helper commands. */
  lemma {:induction false} AlwaysLegal(st: Session, events: seq<Event>)
    requires Legal(st)
    ensures Legal(Replay(st, events)) && (st.accepted ==> Replay(st, events).accepted)
    decreases |events|
  {
    if events == [] {
    } else {
      var e := events[0];
      CommandKeeps(e.env, st, e.c, e.fate);
      AlwaysLegal(Call(e.env, st, e.c, e.fate).0, events[1..]);
    }
  }

  /** Consent appears only through an accept command. */
  lemma {:induction false} ConsentIsExplicit(st: Session, events: seq<Event>)
    requires !st.accepted && Replay(st, events).accepted
    ensures exists i :: 0 <= i < |events| && events[i].c.Accept? && !events[i].fate.Denied?
                        && (events[i].c.scripted || Chomp(events[i].c.typed) == ACCEPT_WORD)
    decreases |events|
  {
    var e := events[0];
    var next := Call(e.env, st, e.c, e.fate).0;
    if !next.accepted {
      ConsentIsExplicit(next, events[1..]);
      var i :| 0 <= i < |events[1..]| && events[1..][i].c.Accept? && !events[1..][i].fate.Denied?
               && (events[1..][i].c.scripted || Chomp(events[1..][i].c.typed) == ACCEPT_WORD);
      assert events[i + 1] == events[1..][i];
    }
  }

  // ---------- stage_choice ----------

  function AcceptPart(accepted: bool): seq<Command> {
    if accepted then [Accept(true, "")] else []
  }

  function GatePart(imgref: string): seq<Command> {
    if imgref != "" then [Gate(imgref)] else []
  }

  function DerivePart(usage: string, imgref: string, nvidia: bool): seq<Command> {
    if !nvidia then []
    else (if imgref != "" then [Base(imgref)] else []) + [Derive(SelectedSet(usage, nvidia), "")]
  }

  function Commands(usage: string, accepted: bool, imgref: string, nvidia: bool): seq<Command> {
    AcceptPart(accepted) + ([Usage(usage)] + (GatePart(imgref) + ([SetName(SelectedSet(usage, nvidia))]
      + DerivePart(usage, imgref, nvidia))))
  }

  /** The commands in order up to the first refusal; `fate(n)` is that of call n. */
  function RunAll(env: Env, st: Session, cs: seq<Command>, fate: nat -> Fate, n: nat): (Session, bool)
    decreases |cs|
  {
    if cs == [] then (st, true)
    else
      var (next, ok) := Call(env, st, cs[0], fate(n));
      if ok then RunAll(env, next, cs[1..], fate, n + 1) else (next, false)
  }

  function StageChoice(env: Env, st: Session, usage: string, accepted: bool, imgref: string, nvidia: bool, fate: nat -> Fate): (Session, bool) {
    if !IsUsage(usage) then (st, false)
    else RunAll(env, st, Commands(usage, accepted, imgref, nvidia), fate, 0)
  }

  lemma {:induction false} RunAppend(env: Env, st: Session, a: seq<Command>, b: seq<Command>, fate: nat -> Fate, n: nat)
    ensures var (mid, ok) := RunAll(env, st, a, fate, n);
            RunAll(env, st, a + b, fate, n) == if ok then RunAll(env, mid, b, fate, n + |a|) else (mid, false)
    decreases |a|
  {
    if a == [] {
      assert a + b == b;
    } else {
      var (next, ok) := Call(env, st, a[0], fate(n));
      TailAppend(a, b);
      if ok {
        RunAppend(env, next, a[1..], b, fate, n + 1);
      }
    }
  }

  lemma RunOne(env: Env, st: Session, c: Command, fate: nat -> Fate, n: nat)
    ensures RunAll(env, st, [c], fate, n) == Call(env, st, c, fate(n))
  {
    assert [c][1..] == [];
  }

  /** The first two parts of a successful run: the consent and the usage. */
  lemma AcceptAndUsage(env: Env, st: Session, usage: string, accepted: bool, rest: seq<Command>, fate: nat -> Fate)
      returns (b: Session, k: nat)
    requires IsUsage(usage) && RunAll(env, st, AcceptPart(accepted) + ([Usage(usage)] + rest), fate, 0).1
    ensures b == st.(accepted := st.accepted || accepted, usage := Some(FileOf(usage)))
    ensures RunAll(env, b, rest, fate, k) == RunAll(env, st, AcceptPart(accepted) + ([Usage(usage)] + rest), fate, 0)
  {
    var p1 := AcceptPart(accepted);
    RunAppend(env, st, p1, [Usage(usage)] + rest, fate, 0);
    var a := RunAll(env, st, p1, fate, 0).0;
    if accepted { RunOne(env, st, Accept(true, ""), fate, 0); }
    RunAppend(env, a, [Usage(usage)], rest, fate, |p1|);
    RunOne(env, a, Usage(usage), fate, |p1|);
    b, k := Call(env, a, Usage(usage), fate(|p1|)).0, |p1| + 1;
  }

  /** The licence gate and the recording of the set. */
  lemma GateAndSet(env: Env, b: Session, imgref: string, name: string, rest: seq<Command>, fate: nat -> Fate, n: nat)
      returns (d: Session, k: nat)
    requires RunAll(env, b, GatePart(imgref) + ([SetName(name)] + rest), fate, n).1
    ensures imgref != "" ==> env.catalog.Some? && (HelperRequires(env.catalog.value, imgref) ==> b.accepted)
    ensures d == b.(gpuSet := Some(FileOf(name)))
    ensures RunAll(env, d, rest, fate, k) == RunAll(env, b, GatePart(imgref) + ([SetName(name)] + rest), fate, n)
  {
    var p3 := GatePart(imgref);
    RunAppend(env, b, p3, [SetName(name)] + rest, fate, n);
    if imgref != "" { RunOne(env, b, Gate(imgref), fate, n); }
    RunAppend(env, b, [SetName(name)], rest, fate, n + |p3|);
    RunOne(env, b, SetName(name), fate, n + |p3|);
    d, k := Call(env, b, SetName(name), fate(n + |p3|)).0, n + |p3| + 1;
  }

  /** Running the parts of the list one after the other. */
  lemma Parts(env: Env, st: Session, usage: string, accepted: bool, imgref: string, nvidia: bool, fate: nat -> Fate)
      returns (d: Session, k: nat)
    requires IsUsage(usage) && StageChoice(env, st, usage, accepted, imgref, nvidia, fate).1
    ensures imgref != "" ==>
              env.catalog.Some? && (HelperRequires(env.catalog.value, imgref) ==> st.accepted || accepted)
    ensures d == st.(accepted := st.accepted || accepted, usage := Some(FileOf(usage)),
                     gpuSet := Some(FileOf(SelectedSet(usage, nvidia))))
    ensures RunAll(env, d, DerivePart(usage, imgref, nvidia), fate, k)
            == StageChoice(env, st, usage, accepted, imgref, nvidia, fate)
  {
    var name, last := SelectedSet(usage, nvidia), DerivePart(usage, imgref, nvidia);
    var b, n := AcceptAndUsage(env, st, usage, accepted, GatePart(imgref) + ([SetName(name)] + last), fate);
    d, k := GateAndSet(env, b, imgref, name, last, fate, n);
  }

  /** A staged choice passed the licence gate, and the recorded usage and set are those
      of the call. */
  lemma StagedChoice(env: Env, st: Session, usage: string, accepted: bool, imgref: string, nvidia: bool, fate: nat -> Fate)
    requires StageChoice(env, st, usage, accepted, imgref, nvidia, fate).1
    ensures var end := StageChoice(env, st, usage, accepted, imgref, nvidia, fate).0;
            && IsUsage(usage) && end.usage == Some(FileOf(usage)) && end.gpuSet == Some(FileOf(SelectedSet(usage, nvidia)))
            && end.accepted == (st.accepted || accepted)
            && (imgref != "" ==> env.catalog.Some? && (HelperRequires(env.catalog.value, imgref) ==> end.accepted))
  {
    var d, k := Parts(env, st, usage, accepted, imgref, nvidia, fate);
    if nvidia {
      DerivePartKeeps(env, d, usage, imgref, fate, k);
    }
  }

  /** The derive part with its optional base command. */
  lemma DeriveRuns(env: Env, d: Session, usage: string, imgref: string, fate: nat -> Fate, k: nat) returns (e: Session, n: nat)
    requires RunAll(env, d, DerivePart(usage, imgref, true), fate, k).1
    ensures e == if imgref != "" then d.(base := Some(FileOf(imgref))) else d
    ensures fate(n).Runs? && DeriveImage(env, e, SelectedSet(usage, true), "", fate(n).tools)
            == RunAll(env, d, DerivePart(usage, imgref, true), fate, k)
  {
    var last := Derive(SelectedSet(usage, true), "");
    if imgref != "" {
      RunAppend(env, d, [Base(imgref)], [last], fate, k);
      RunOne(env, d, Base(imgref), fate, k);
      e, n := d.(base := Some(FileOf(imgref))), k + 1;
      assert RunAll(env, d, DerivePart(usage, imgref, true), fate, k) == RunAll(env, e, [last], fate, n);
    } else {
      e, n := d, k;
      assert [] + [last] == [last];
    }
    DeriveCall(env, e, SelectedSet(usage, true), fate, n);
  }

  lemma DeriveCall(env: Env, e: Session, name: string, fate: nat -> Fate, n: nat)
    requires RunAll(env, e, [Derive(name, "")], fate, n).1
    ensures fate(n).Runs? && DeriveImage(env, e, name, "", fate(n).tools) == RunAll(env, e, [Derive(name, "")], fate, n)
  {
    RunOne(env, e, Derive(name, ""), fate, n);
  }

  lemma DerivePartKeeps(env: Env, d: Session, usage: string, imgref: string, fate: nat -> Fate, k: nat)
    requires RunAll(env, d, DerivePart(usage, imgref, true), fate, k).1
    ensures var end := RunAll(env, d, DerivePart(usage, imgref, true), fate, k).0;
            end.accepted == d.accepted && end.usage == d.usage && end.gpuSet == d.gpuSet
  {
    var e, n := DeriveRuns(env, d, usage, imgref, fate, k);
  }

  /** The recorded derived image is the image apply_gpu puts in the recipe exactly when
      the engine is podman and the reference survives the state file: podman records the
      chosen image as read back with -nvidia, apt2ostree the derived ref in the repository
      that the chosen image names. */
  lemma StagedDerivation(env: Env, st: Session, usage: string, accepted: bool, imgref: string, fate: nat -> Fate, r: Recipe, g: GpuStep)
    requires imgref != "" && StageChoice(env, st, usage, accepted, imgref, true, fate).1
    requires g.usage == Some(usage) && NvidiaFlag(g) && BaseImage(g) == imgref
    ensures var end := StageChoice(env, st, usage, accepted, imgref, true, fate).0;
            && env.engine in {"podman", "apt2ostree"}
            && (env.engine == "podman" ==> ReadBack(end.derived) == ReadBack(Some(FileOf(imgref))) + "-nvidia")
            && (env.engine == "apt2ostree" ==>
                  && Parse(ReadBack(Some(imgref + "\n"))).Some?
                  && end.derived == Some("ostree:" + Parse(ReadBack(Some(imgref + "\n"))).value.0 + "#" + "install/nvidia/"
                                         + SelectedSet(usage, true) + "/derived" + "\n")
                  && Parse(ReadBack(end.derived)).Some?
                  && Parse(ReadBack(end.derived)).value.1 == "install/nvidia/" + SelectedSet(usage, true) + "/derived")
            && ApplyGpu(r, Some(g)).imgref == imgref + "-nvidia"
            && (ReadBack(end.derived) == ApplyGpu(r, Some(g)).imgref <==> env.engine == "podman" && Clean(imgref))
            && end.gpuSet == Some(FileOf(ApplyGpu(r, Some(g)).gpuSet))
  {
    var d, k := Parts(env, st, usage, accepted, imgref, true, fate);
    var e, n := DeriveRuns(env, d, usage, imgref, fate, k);
    RecipeImage(r, g, usage);
    StagedChoice(env, st, usage, accepted, imgref, true, fate);
    EnginesDiffer();
    if env.engine == "podman" {
      PodmanDerives(env, e, SelectedSet(usage, true), imgref, fate(n).tools);
      ReadBackExactly(imgref);
      SuffixInjective(ReadBack(Some(FileOf(imgref))), imgref);
    } else {
      SetIsPlain(usage, true);
      AptDerives(env, e, SelectedSet(usage, true), fate(n).tools);
      PrintedFile(Parse(ReadBack(e.base)).value.0, SelectedSet(usage, true));
      NotSuffixed(ReadBack(StageChoice(env, st, usage, accepted, imgref, true, fate).0.derived), imgref);
    }
  }

  lemma NotSuffixed(read: string, imgref: string)
    requires read != "" && read[|read| - 1] == 'd'
    ensures read != imgref + "-nvidia"
  {
    assert (imgref + "-nvidia")[|imgref + "-nvidia"| - 1] == 'a';
  }

  lemma EnginesDiffer()
    ensures "podman" != "apt2ostree"
  {
    assert "podman"[0] != "apt2ostree"[0];
  }

  lemma SetIsPlain(usage: string, nvidia: bool)
    requires IsUsage(usage)
    ensures IsSet(SelectedSet(usage, nvidia)) && Free(SelectedSet(usage, nvidia), '\r') && Free(SelectedSet(usage, nvidia), '#')
  {
    assert "gpu-" + "ia" == "gpu-ia" && "gpu-" + "gaming" == "gpu-gaming";
    assert "gpu-" + "ia" + "-nvidia" == "gpu-ia-nvidia" && "gpu-" + "gaming" + "-nvidia" == "gpu-gaming-nvidia";
  }

  lemma PodmanDerives(env: Env, e: Session, name: string, imgref: string, tools: bool)
    requires env.engine == "podman" && e.base == Some(FileOf(imgref)) && DeriveImage(env, e, name, "", tools).1
    ensures ReadBack(DeriveImage(env, e, name, "", tools).0.derived) == ReadBack(Some(FileOf(imgref))) + "-nvidia"
  {
    EnginesDiffer();
    var from := ReadBack(e.base);
    ReadIsClean(e.base);
    CleanSuffix(from);
    ReadBackExactly(from + "-nvidia");
  }

  /** An apt2ostree derive records a reference to the derived ref; it ends in its `d`. */
  lemma AptDerives(env: Env, e: Session, name: string, tools: bool)
    requires env.engine == "apt2ostree" && DeriveImage(env, e, name, "", tools).1 && Free(name, '\r') && Free(name, '#')
    ensures var read := ReadBack(DeriveImage(env, e, name, "", tools).0.derived);
            && Parse(read).Some? && Parse(read).value.1 == DerivedRef(name)
            && read != "" && read[|read| - 1] == 'd'
  {
    var from := ReadBack(e.base);
    RecordedIsBase(from, name);
    RecordedEnds(Parse(from).value.0, name);
  }

  lemma RecordedEnds(repo: string, name: string)
    requires Free(name, '\r')
    ensures var read := ReadBack(Some(FileOf(Print(repo, DerivedRef(name)))));
            read != "" && read[|read| - 1] == 'd'
  {
    var ref := DerivedRef(name);
    DerivedRefEnds(name);
    assert ref[|ref| - 1] == 'd';
    ReadPrinted(repo, ref);
    var p := Print(UniversalNewlines(repo), ref);
    assert p[|p| - 1] == ref[|ref| - 1];
  }

  lemma RecipeImage(r: Recipe, g: GpuStep, usage: string)
    requires g.usage == Some(usage) && IsUsage(usage) && NvidiaFlag(g) && BaseImage(g) != ""
    ensures ApplyGpu(r, Some(g)).imgref == BaseImage(g) + "-nvidia"
    ensures ApplyGpu(r, Some(g)).gpuSet == SelectedSet(usage, true)
  {
  }

  lemma CleanSuffix(from: string)
    requires Clean(from) && from != ""
    ensures Clean(from + "-nvidia")
  {
    var s := from + "-nvidia";
    assert Free("-nvidia", '\r') && s[|s| - 1] == 'a' && !IsSpace('a') && s[0] == from[0];
  }

  lemma SuffixInjective(a: string, b: string)
    ensures a + "-nvidia" == b + "-nvidia" <==> a == b
  {
    var x, y := a + "-nvidia", b + "-nvidia";
    assert x[..|x| - 7] == a && y[..|y| - 7] == b;
  }

  // ---------- when a choice is staged ----------

  /** The helper lets an image through. */
  predicate GatePasses(env: Env, imgref: string, consent: bool) {
    imgref != "" ==> env.catalog.Some? && (HelperRequires(env.catalog.value, imgref) ==> consent)
  }

  lemma GateRuns(env: Env, b: Session, imgref: string, name: string, rest: seq<Command>, fate: nat -> Fate, n: nat)
      returns (k: nat)
    requires IsSet(name) && forall i :: fate(i).Runs?
    ensures RunAll(env, b, GatePart(imgref) + ([SetName(name)] + rest), fate, n).1 <==>
            GatePasses(env, imgref, b.accepted) && RunAll(env, b.(gpuSet := Some(FileOf(name))), rest, fate, k).1
  {
    var p3 := GatePart(imgref);
    RunAppend(env, b, p3, [SetName(name)] + rest, fate, n);
    if imgref != "" { RunOne(env, b, Gate(imgref), fate, n); }
    RunAppend(env, b, [SetName(name)], rest, fate, n + |p3|);
    RunOne(env, b, SetName(name), fate, n + |p3|);
    k := n + |p3| + 1;
  }

  /** When every call is authorised and seen, a choice is staged exactly when the gate
      lets the image through and the derive part succeeds. */
  lemma StageRuns(env: Env, st: Session, usage: string, accepted: bool, imgref: string, nvidia: bool, fate: nat -> Fate)
      returns (d: Session, k: nat)
    requires IsUsage(usage) && forall n :: fate(n).Runs?
    ensures d == st.(accepted := st.accepted || accepted, usage := Some(FileOf(usage)),
                     gpuSet := Some(FileOf(SelectedSet(usage, nvidia))))
    ensures StageChoice(env, st, usage, accepted, imgref, nvidia, fate).1 <==>
            GatePasses(env, imgref, st.accepted || accepted) && RunAll(env, d, DerivePart(usage, imgref, nvidia), fate, k).1
  {
    var p1, name, last := AcceptPart(accepted), SelectedSet(usage, nvidia), DerivePart(usage, imgref, nvidia);
    var rest := GatePart(imgref) + ([SetName(name)] + last);
    SetIsPlain(usage, nvidia);
    RunAppend(env, st, p1, [Usage(usage)] + rest, fate, 0);
    if accepted { RunOne(env, st, Accept(true, ""), fate, 0); }
    var a := RunAll(env, st, p1, fate, 0).0;
    RunAppend(env, a, [Usage(usage)], rest, fate, |p1|);
    RunOne(env, a, Usage(usage), fate, |p1|);
    var b := Call(env, a, Usage(usage), fate(|p1|)).0;
    k := GateRuns(env, b, imgref, name, last, fate, |p1| + 1);
    d := b.(gpuSet := Some(FileOf(name)));
  }

  /** The derive part with podman, when its programs succeed. */
  lemma PodmanRuns(env: Env, d: Session, usage: string, imgref: string, fate: nat -> Fate, k: nat)
    requires IsUsage(usage) && env.engine == "podman" && imgref != "" && ReadBack(Some(FileOf(imgref))) != ""
    requires forall n :: fate(n) == Runs(true)
    ensures RunAll(env, d, DerivePart(usage, imgref, true), fate, k).1
  {
    SetIsPlain(usage, true);
    SetEnds(usage);
    PodmanPair(env, d, SelectedSet(usage, true), imgref, fate, k);
  }

  lemma PodmanPair(env: Env, d: Session, name: string, imgref: string, fate: nat -> Fate, k: nat)
    requires env.engine == "podman" && Derivable(name) && ReadBack(Some(FileOf(imgref))) != ""
    requires forall n :: fate(n) == Runs(true)
    ensures RunAll(env, d, [Base(imgref)] + [Derive(name, "")], fate, k).1
  {
    var e, first := d.(base := Some(FileOf(imgref))), Base(imgref);
    assert Exec(env, d, first, true) == (e, true);
    PodmanSucceeds(env, e, name);
    TwoCalls(env, d, first, Derive(name, ""), fate, k);
  }

  lemma TwoCalls(env: Env, d: Session, first: Command, second: Command, fate: nat -> Fate, k: nat)
    requires forall n :: fate(n) == Runs(true)
    requires Exec(env, d, first, true).1 && Exec(env, Exec(env, d, first, true).0, second, true).1
    ensures RunAll(env, d, [first] + [second], fate, k).1
  {
    RunAppend(env, d, [first], [second], fate, k);
    RunOne(env, d, first, fate, k);
    RunOne(env, Exec(env, d, first, true).0, second, fate, k + 1);
  }

  lemma SetEnds(usage: string)
    ensures EndsWith(SelectedSet(usage, true), "-nvidia")
  {
  }

  lemma PodmanSucceeds(env: Env, e: Session, name: string)
    requires env.engine == "podman" && Derivable(name) && ReadBack(e.base) != ""
    ensures Exec(env, e, Derive(name, ""), true).1
  {
    EnginesDiffer();
  }

  lemma ReadNonEmpty(value: string)
    requires Free(value, '\r') && value != "" && !IsSpace(value[0])
    ensures ReadBack(Some(FileOf(value))) != ""
  {
    assert Free(FileOf(value), '\r');
    NewlinesFree(FileOf(value));
    StripNewline(value);
    LStripNone(value);
  }

  /** A live image on podman, nothing recorded, every call authorised. */
  const PODMAN := Env(Some([]), true, "podman", true)
  const NOTHING := Session(false, None, None, None, None, None)

  /** On such an image a reference that does not survive the state file, but is not read
      back empty, is staged, and the recorded derived image is not the recipe's. */
  lemma UncleanDiffers(env: Env, st: Session, usage: string, imgref: string, fate: nat -> Fate, r: Recipe, g: GpuStep)
    requires env.engine == "podman" && GatePasses(env, imgref, true) && forall n :: fate(n) == Runs(true)
    requires IsUsage(usage) && g.usage == Some(usage) && NvidiaFlag(g) && BaseImage(g) == imgref
    requires imgref != "" && !Clean(imgref) && ReadBack(Some(FileOf(imgref))) != ""
    ensures var (end, ok) := StageChoice(env, st, usage, true, imgref, true, fate);
            ok && ReadBack(end.derived) != ApplyGpu(r, Some(g)).imgref
  {
    var d, k := StageRuns(env, st, usage, true, imgref, true, fate);
    PodmanRuns(env, d, usage, imgref, fate, k);
    StagedDerivation(env, st, usage, true, imgref, fate, r, g);
  }

  lemma BlankIsUnclean()
    ensures !Clean("base ") && ReadBack(Some(FileOf("base "))) != ""
  {
    assert "base "[0] == 'b' && "base "[4] == ' ' && IsSpace(' ');
    ReadNonEmpty("base ");
  }

  /** An image reference with a trailing blank is staged, but the recorded derived image
      is not the one in the recipe. */
  lemma BlankImgrefDiffers(r: Recipe)
    ensures var g := GpuStep(Some("gaming"), Some(true), None, Some("base "), None, None);
            var (end, ok) := StageChoice(PODMAN, NOTHING, "gaming", true, "base ", true, n => Runs(true));
            ok && ReadBack(end.derived) != ApplyGpu(r, Some(g)).imgref
  {
    BlankIsUnclean();
    UncleanDiffers(PODMAN, NOTHING, "gaming", "base ", n => Runs(true), r,
                   GpuStep(Some("gaming"), Some(true), None, Some("base "), None, None));
  }

  // ---------- the page that drives it ----------

  /** __on_next of the GPU page: the licence is taken as accepted exactly when the GUI
      asks for it, and the nvidia flag is not passed. */
  function OnNext(env: Env, st: Session, catalog: seq<Image>, usage: string, imgref: string, fate: nat -> Fate): (Session, bool) {
    StageChoice(env, st, usage, GuiRequires(catalog, imgref), imgref, false, fate)
  }

  /** The finals of the same page. */
  function PageFinals(catalog: seq<Image>, usage: string, imgref: string, sig: bool): GpuStep {
    GpuStep(Some(usage), Some(GuiRequires(catalog, imgref)), None, None, None, Some(sig))
  }

  /** The set the page records is the set of the recipe exactly when no licence was
      needed: the page passes no nvidia flag while apply_gpu derives it from consent. */
  lemma PageSetVersusRecipe(env: Env, st: Session, catalog: seq<Image>, usage: string, imgref: string, sig: bool, fate: nat -> Fate, r: Recipe)
    requires OnNext(env, st, catalog, usage, imgref, fate).1
    ensures OnNext(env, st, catalog, usage, imgref, fate).0.gpuSet
              == Some(FileOf(ApplyGpu(r, Some(PageFinals(catalog, usage, imgref, sig))).gpuSet))
            <==> !GuiRequires(catalog, imgref)
  {
    var accepted := GuiRequires(catalog, imgref);
    StagedChoice(env, st, usage, accepted, imgref, false, fate);
    SetsDiffer(usage);
    assert ApplyGpu(r, Some(PageFinals(catalog, usage, imgref, sig))).gpuSet == SelectedSet(usage, accepted);
    FileOfInjective(SelectedSet(usage, false), SelectedSet(usage, accepted));
  }

  lemma FileOfInjective(a: string, b: string)
    ensures FileOf(a) == FileOf(b) <==> a == b
  {
    assert FileOf(a)[..|FileOf(a)| - 1] == a && FileOf(b)[..|FileOf(b)| - 1] == b;
  }

  lemma SetsDiffer(usage: string)
    ensures SelectedSet(usage, true) != SelectedSet(usage, false)
  {
    assert |SelectedSet(usage, true)| == |SelectedSet(usage, false)| + 7;
  }

  /** When every call is authorised and seen, the page's choice is staged exactly when the
      helper demands no licence that the GUI did not ask for; on a catalog of distinct
      references it always is. */
  lemma PageSucceeds(env: Env, st: Session, catalog: seq<Image>, usage: string, imgref: string, fate: nat -> Fate)
    requires IsUsage(usage) && forall n :: fate(n).Runs?
    ensures OnNext(env, st, catalog, usage, imgref, fate).1 <==>
            GatePasses(env, imgref, st.accepted || GuiRequires(catalog, imgref))
    ensures env.catalog == Some(catalog) && Distinct(catalog) ==> OnNext(env, st, catalog, usage, imgref, fate).1
  {
    TestsAgree(catalog, imgref);
    var d, k := StageRuns(env, st, usage, GuiRequires(catalog, imgref), imgref, false, fate);
  }

  // ---------- the calls as they happen ----------

  class Helpers {
    var st: Session

    method Invoke(env: Env, c: Command, fate: Fate) returns (ok: bool)
      modifies this
      ensures (st, ok) == Call(env, old(st), c, fate)
    {
      if fate.Denied? { return false; }
      var (next, done) := Exec(env, st, c, fate.tools);
      st := next;
      return done && fate.Runs?;
    }

    /** The loop of stage_choice: stop at the first refusal. */
    method RunCommands(env: Env, commands: seq<Command>, fate: nat -> Fate) returns (ok: bool)
      modifies this
      ensures (st, ok) == RunAll(env, old(st), commands, fate, 0)
    {
      ghost var start := st;
      for i := 0 to |commands|
        invariant RunAll(env, st, commands[i..], fate, i) == RunAll(env, start, commands, fate, 0)
      {
        assert commands[i..][1..] == commands[i + 1..];
        var done := Invoke(env, commands[i], fate(i));
        if !done { return false; }
      }
      return true;
    }

    /** stage_choice. */
    method Stage(env: Env, usage: string, accepted: bool, imgref: string, nvidia: bool, fate: nat -> Fate) returns (ok: bool)
      modifies this
      ensures (st, ok) == StageChoice(env, old(st), usage, accepted, imgref, nvidia, fate)
    {
      if !IsUsage(usage) { return false; }
      var commands := ListCommands(usage, accepted, imgref, nvidia);
      ok := RunCommands(env, commands, fate);
    }
  }

  /** The command list of stage_choice, appended to step by step. */
  method ListCommands(usage: string, accepted: bool, imgref: string, nvidia: bool) returns (commands: seq<Command>)
    ensures commands == Commands(usage, accepted, imgref, nvidia)
  {
    commands := [];
    if accepted { commands := commands + [Accept(true, "")]; }
    commands := commands + [Usage(usage)];
    if imgref != "" { commands := commands + [Gate(imgref)]; }
    commands := commands + [SetName(SelectedSet(usage, nvidia))];
    if nvidia {
      if imgref != "" { commands := commands + [Base(imgref)]; }
      commands := commands + [Derive(SelectedSet(usage, nvidia), "")];
    }
  }
}
