/** What each privileged command and a whole staged choice record, said on the texts of the
    state files. */
module ConsentOutcome {
  import opened Text
  import opened Catalog
  import opened OstreeBase
  import opened Installer
  import opened Consent

  // ---------- one command ----------

  /** A derive succeeds for an -nvidia set whose programs all succeed: with apt2ostree when
      the tool is there and the base is an ostree reference, with podman when there is a
      base. A refused one records nothing. */
  lemma DeriveSucceeds(env: Env, st: Session, name: string, base: string, tools: bool)
    ensures var from := if base != "" then base else ReadBack(st.base);
            var (end, ok) := DeriveImage(env, st, name, base, tools);
            && (ok <==> && tools && name in {"gpu-ia-nvidia", "gpu-gaming-nvidia"}
                        && ((env.engine == "podman" && from != "")
                            || (env.engine == "apt2ostree" && env.tool && Parse(from).Some?)))
            && (!ok ==> end == st)
  {
    EnginesDiffer();
    DerivableSets(name);
  }

  /** The derived reference a derive records. */
  lemma DeriveRecords(env: Env, st: Session, name: string, base: string, tools: bool)
    requires DeriveImage(env, st, name, base, tools).1
    ensures var from := if base != "" then base else ReadBack(st.base);
            var end := DeriveImage(env, st, name, base, tools).0;
            && (env.engine == "podman" ==> end == st.(derived := Some(from + "-nvidia" + "\n")))
            && (env.engine == "apt2ostree" ==>
                  && Parse(from).Some?
                  && end == st.(engine := Some("apt2ostree\n"),
                                derived := Some("ostree:" + Parse(from).value.0 + "#" + "install/nvidia/" + name + "/derived" + "\n")))
  {
    EnginesDiffer();
    if env.engine == "apt2ostree" {
      PrintedFile(Parse(if base != "" then base else ReadBack(st.base)).value.0, name);
    }
  }

  lemma DerivableSets(name: string)
    ensures Derivable(name) <==> name in {"gpu-ia-nvidia", "gpu-gaming-nvidia"}
  {
    assert "gpu-ia"[5] == 'a' && "gpu-gaming"[9] == 'g' && "-nvidia"[6] == 'a' && "-nvidia"[0] == '-';
    assert "gpu-ia-nvidia"[6..] == "-nvidia" && "gpu-gaming-nvidia"[10..] == "-nvidia";
    assert |"gpu-ia"| < 7;
  }

  /** The other commands: what is accepted and what is recorded. */
  lemma ExecExactly(env: Env, st: Session, c: Command, tools: bool)
    ensures var (end, ok) := Exec(env, st, c, tools);
            && (c.Accept? ==>
                  && (ok <==> c.scripted || (env.licenceText && Reads(c.typed, "ACCEPT")))
                  && end == if ok then st.(accepted := true) else st)
            && (c.Usage? ==>
                  && (ok <==> c.usage in {"auto", "gaming", "ia"})
                  && end == if ok then st.(usage := Some(c.usage + "\n")) else st)
            && (c.Gate? ==>
                  && end == st
                  && (ok <==> && env.catalog.Some?
                              && (st.accepted || forall i :: 0 <= i < |env.catalog.value| && env.catalog.value[i].imgref == c.imgref
                                                             ==> env.catalog.value[i].eula == "")))
            && (c.SetName? ==>
                  && (ok <==> c.name in {"gpu-ia", "gpu-gaming", "gpu-ia-nvidia", "gpu-gaming-nvidia"})
                  && end == if ok then st.(gpuSet := Some(c.name + "\n")) else st)
            && (c.Base? ==> ok && end == st.(base := Some(c.ref + "\n")))
  {
    if c.Accept? { ChompReads(c.typed, "ACCEPT"); }
  }

  // ---------- the command list ----------

  /** The calls of stage_choice: the acceptance when given, the usage, the image when
      known, the set, and with the NVIDIA flag the base when known and the derive. */
  lemma CommandsExactly(usage: string, img: string)
    requires usage in {"auto", "gaming", "ia"} && img != ""
    ensures var set0 := if usage == "ia" then "gpu-ia" else "gpu-gaming";
            var set1 := if usage == "ia" then "gpu-ia-nvidia" else "gpu-gaming-nvidia";
            && Commands(usage, false, "", false) == [Usage(usage), SetName(set0)]
            && Commands(usage, true, "", false) == [Accept(true, ""), Usage(usage), SetName(set0)]
            && Commands(usage, false, img, false) == [Usage(usage), Gate(img), SetName(set0)]
            && Commands(usage, true, img, false) == [Accept(true, ""), Usage(usage), Gate(img), SetName(set0)]
            && Commands(usage, false, "", true) == [Usage(usage), SetName(set1), Derive(set1, "")]
            && Commands(usage, true, "", true) == [Accept(true, ""), Usage(usage), SetName(set1), Derive(set1, "")]
            && Commands(usage, false, img, true) == [Usage(usage), Gate(img), SetName(set1), Base(img), Derive(set1, "")]
            && Commands(usage, true, img, true)
               == [Accept(true, ""), Usage(usage), Gate(img), SetName(set1), Base(img), Derive(set1, "")]
  {
    SetNames();
  }

  /** A choice whose image the helper refuses is not staged and records neither a set nor
      a base nor a derived image, whatever happens to the calls. */
  lemma RefusedRecordsNothing(env: Env, st: Session, usage: string, accepted: bool, imgref: string, nvidia: bool, fate: nat -> Fate)
    requires imgref != "" && !st.accepted && !accepted
    requires env.catalog.None? || exists i :: && 0 <= i < |env.catalog.value| && env.catalog.value[i].imgref == imgref
                                              && env.catalog.value[i].eula != ""
    ensures var (end, ok) := StageChoice(env, st, usage, accepted, imgref, nvidia, fate);
            && !ok && !end.accepted && end.gpuSet == st.gpuSet && end.base == st.base
            && end.derived == st.derived && end.engine == st.engine
  {
    if IsUsage(usage) {
      var rest := [SetName(SelectedSet(usage, nvidia))] + DerivePart(usage, imgref, nvidia);
      GateStops(env, st, usage, imgref, rest, fate);
      assert [] + ([Usage(usage)] + ([Gate(imgref)] + rest)) == [Usage(usage)] + ([Gate(imgref)] + rest);
    }
  }

  lemma GateStops(env: Env, st: Session, usage: string, imgref: string, rest: seq<Command>, fate: nat -> Fate)
    requires !st.accepted && (env.catalog.None? || HelperRequires(env.catalog.value, imgref))
    ensures var (end, ok) := RunAll(env, st, [Usage(usage)] + ([Gate(imgref)] + rest), fate, 0);
            !ok && end == st.(usage := end.usage)
  {
    RunAppend(env, st, [Usage(usage)], [Gate(imgref)] + rest, fate, 0);
    RunOne(env, st, Usage(usage), fate, 0);
    var (mid, ok) := Call(env, st, Usage(usage), fate(0));
    if ok {
      RunAppend(env, mid, [Gate(imgref)], rest, fate, 1);
      RunOne(env, mid, Gate(imgref), fate, 1);
    }
  }

  // ---------- a staged choice ----------

  /** The whole session after a staged choice: the usage and set files hold the choice,
      and with the NVIDIA flag the derived file holds the image as read back with
      -nvidia for podman, and for apt2ostree the derived ref in the repository that the
      image names. */
  lemma StagedExactly(env: Env, st: Session, usage: string, accepted: bool, imgref: string, fate: nat -> Fate)
    requires imgref != "" && StageChoice(env, st, usage, accepted, imgref, true, fate).1
    ensures var name := if usage == "ia" then "gpu-ia-nvidia" else "gpu-gaming-nvidia";
            var from := ReadBack(Some(imgref + "\n"));
            var end := StageChoice(env, st, usage, accepted, imgref, true, fate).0;
            && usage in {"auto", "gaming", "ia"} && end.usage == Some(usage + "\n") && end.gpuSet == Some(name + "\n")
            && end.base == Some(imgref + "\n")
            && env.engine in {"podman", "apt2ostree"}
            && (env.engine == "podman" ==> end.engine == st.engine && end.derived == Some(from + "-nvidia" + "\n"))
            && (env.engine == "apt2ostree" ==>
                  && Parse(from).Some? && end.engine == Some("apt2ostree\n")
                  && end.derived == Some("ostree:" + Parse(from).value.0 + "#" + "install/nvidia/" + name + "/derived" + "\n"))
  {
    var d, k := Parts(env, st, usage, accepted, imgref, true, fate);
    var e, n := DeriveRuns(env, d, usage, imgref, fate, k);
    SetNames();
    DeriveSucceeds(env, e, SelectedSet(usage, true), "", fate(n).tools);
    DeriveRecords(env, e, SelectedSet(usage, true), "", fate(n).tools);
  }

  /** For a clean reference `ostree:<repo>#<ref>` with a normalised repository, apt2ostree
      records `ostree:<repo>#install/nvidia/<set>/derived`, in that repository. */
  lemma RecordedInBase(env: Env, st: Session, usage: string, accepted: bool, repo: string, ref: string, fate: nat -> Fate)
    requires Normal(repo) == repo && ref != "" && Free(ref, '#') && Clean("ostree:" + repo + "#" + ref)
    requires env.engine == "apt2ostree" && StageChoice(env, st, usage, accepted, "ostree:" + repo + "#" + ref, true, fate).1
    ensures var name := if usage == "ia" then "gpu-ia-nvidia" else "gpu-gaming-nvidia";
            StageChoice(env, st, usage, accepted, "ostree:" + repo + "#" + ref, true, fate).0.derived
            == Some("ostree:" + repo + "#" + "install/nvidia/" + name + "/derived" + "\n")
  {
    var imgref := "ostree:" + repo + "#" + ref;
    assert imgref != "" by { assert imgref[0] == 'o'; }
    assert LABEL + ":" == "ostree:";
    assert Print(repo, ref) == imgref;
    ReadBackExactly(imgref);
    ParseInvertsPrint(repo, ref);
    EnginesDiffer();
    StagedExactly(env, st, usage, accepted, imgref, fate);
  }
}
