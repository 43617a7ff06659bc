/** EnsureKernelArg over the boot loader entries of the installed system. */
module KernelArg {

  /** A BLS entry: the arguments of its options line, or a file that cannot be patched. */
  datatype BootEntry = Options(args: seq<string>) | Unpatchable

  /** ensureArgInEntry adds the argument once. */
  function WithArg(e: BootEntry, arg: string): BootEntry {
    if e.Options? && arg !in e.args then Options(e.args + [arg]) else e
  }

  predicate Carries(e: BootEntry, arg: string) {
    e.Options? && arg in e.args
  }

  function AllWithArg(es: seq<BootEntry>, arg: string): (r: seq<BootEntry>)
    ensures |r| == |es| && forall i :: 0 <= i < |es| ==> r[i] == WithArg(es[i], arg)
  {
    seq(|es|, i requires 0 <= i < |es| => WithArg(es[i], arg))
  }

  /** The number of patchable entries that lack the argument. */
  function Lacking(es: seq<BootEntry>, arg: string): nat {
    if es == [] then 0
    else Lacking(es[..|es| - 1], arg) + if es[|es| - 1].Options? && arg !in es[|es| - 1].args then 1 else 0
  }

  predicate Patchable(es: seq<BootEntry>) {
    forall i :: 0 <= i < |es| ==> es[i].Options?
  }

  lemma {:induction false} NoneLacking(es: seq<BootEntry>, arg: string)
    ensures Patchable(es) ==> (Lacking(es, arg) == 0 <==> forall i :: 0 <= i < |es| ==> Carries(es[i], arg))
  {
    if es == [] || !Patchable(es) {
    } else {
      NoneLacking(es[..|es| - 1], arg);
    }
  }

  /** The indices of the patchable entries without the argument. */
  function Bare(es: seq<BootEntry>, arg: string): set<int> {
    set i | 0 <= i < |es| && es[i].Options? && arg !in es[i].args
  }

  /** Each such entry counts once. */
  lemma {:induction false} LackingExactly(es: seq<BootEntry>, arg: string)
    ensures Lacking(es, arg) == |Bare(es, arg)|
  {
    if es == [] {
      assert Bare(es, arg) == {};
    } else {
      var n := |es| - 1;
      LackingExactly(es[..n], arg);
      var last := if es[n].Options? && arg !in es[n].args then {n} else {};
      assert Bare(es, arg) == Bare(es[..n], arg) + last;
    }
  }

  /** Every entry keeps its arguments in their order; one without the argument gets it
      at the end. */
  predicate Extended(before: seq<BootEntry>, after: seq<BootEntry>, arg: string) {
    && |after| == |before|
    && forall i :: 0 <= i < |before| && before[i].Options? ==>
         && after[i].Options?
         && after[i].args == if arg in before[i].args then before[i].args else before[i].args + [arg]
  }

  /** After a failure some entries are extended and the others are as they were. */
  predicate PartlyExtended(before: seq<BootEntry>, after: seq<BootEntry>, arg: string) {
    && |after| == |before|
    && forall i :: 0 <= i < |before| ==>
         || after[i] == before[i]
         || (before[i].Options? && arg !in before[i].args && after[i] == Options(before[i].args + [arg]))
  }

  /** After all entries were patched none lacks the argument: a second run counts 0 and
      changes nothing. */
  lemma SecondRunAddsNothing(es: seq<BootEntry>, arg: string)
    requires Patchable(es)
    ensures Lacking(AllWithArg(es, arg), arg) == 0 && AllWithArg(AllWithArg(es, arg), arg) == AllWithArg(es, arg)
  {
    NoneLacking(AllWithArg(es, arg), arg);
  }

  class LoaderEntries {
    /** The entries below boot/ and below boot/efi/, each in glob order. */
    var boot: seq<BootEntry>
    var efi: seq<BootEntry>

    /** One directory: the number of entries changed, or failure at the first entry that
        cannot be patched. */
    method PatchAll(es: seq<BootEntry>, arg: string) returns (r: seq<BootEntry>, changed: nat, ok: bool)
      ensures ok <==> Patchable(es)
      ensures ok ==> r == AllWithArg(es, arg) && changed == Lacking(es, arg)
      ensures |r| == |es| && forall i :: 0 <= i < |es| ==> r[i] == es[i] || r[i] == WithArg(es[i], arg)
    {
      r, changed := es, 0;
      for i := 0 to |es|
        invariant |r| == |es| && Patchable(es[..i]) && changed == Lacking(es[..i], arg)
        invariant forall j :: 0 <= j < i ==> r[j] == WithArg(es[j], arg)
        invariant forall j :: i <= j < |es| ==> r[j] == es[j]
      {
        assert es[..i + 1][..i] == es[..i];
        if es[i].Unpatchable? { return r, changed, false; }
        if arg !in es[i].args {
          r := r[i := Options(es[i].args + [arg])];
          changed := changed + 1;
        }
      }
      assert es[..|es|] == es;
      ok := true;
    }

    /** The count of changed entries over both directories; an error when neither has
        entries or one cannot be patched. */
    method EnsureKernelArg(arg: string) returns (total: nat, ok: bool)
      modifies this
      ensures ok <==> old(boot) + old(efi) != [] && Patchable(old(boot)) && Patchable(old(efi))
      ensures ok ==> total == Lacking(old(boot), arg) + Lacking(old(efi), arg)
      ensures ok ==> boot == AllWithArg(old(boot), arg) && efi == AllWithArg(old(efi), arg)
      ensures ok ==> forall e :: e in boot + efi ==> Carries(e, arg)
      ensures ok ==> Extended(old(boot), boot, arg) && Extended(old(efi), efi, arg)
      ensures PartlyExtended(old(boot), boot, arg) && PartlyExtended(old(efi), efi, arg)
      ensures !ok && !Patchable(old(boot)) ==> efi == old(efi)
      ensures old(boot) + old(efi) == [] ==> total == 0 && boot == [] && efi == []
    {
      total := 0;
      var found := false;
      if boot != [] {
        found := true;
        var r, n, fine := PatchAll(boot, arg);
        boot, total := r, total + n;
        if !fine { return total, false; }
      }
      if efi != [] {
        found := true;
        var r, n, fine := PatchAll(efi, arg);
        efi, total := r, total + n;
        if !fine { return total, false; }
      }
      return total, found;
    }
  }
}
