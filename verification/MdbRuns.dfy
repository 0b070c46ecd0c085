/** Every state that boot and any sequence of operations can reach, and what the kernel's local checks mean there. */
module MdbRuns {
  import opened Words
  import opened Caps
  import opened MdbList
  import opened MdbSteps
  import opened MdbOps
  import opened Retype

  datatype Step =
    | Boot(slot: nat, cap: Cap)
    | Insert(src: nat, slot: nat, cap: Cap)
    | RetypeStep(src: nat, slots: seq<nat>, caps: seq<Cap>, base: nat, top: nat)
    | Reset(src: nat, free: nat)
    | Rename(renamed: seq<Entry>)
    | Zombify(src: nat, zombie: Cap)
    | Remove(src: nat)

  predicate Enabled(m: Mdb, s: Step) {
    match s
    case Boot(_, cap) => MayBoot(m, cap)
    case Insert(k, _, cap) => k < |m.es| && MayInsert(m, k, cap)
    case RetypeStep(k, slots, caps, base, top) =>
      && k < |m.es| && m.es[k].cap.Untyped? && |slots| == |caps|
      && m.es[k].cap.ptr + StartOffset(NoChildrenAt(m.es, k), m.es[k].cap) <= base <= top
      && top <= m.es[k].cap.ptr + Pow2(m.es[k].cap.bits)
      && m.es[k].cap.ptr % 16 == 0 && top % 16 == 0 && Ascending(caps, base, top)
    case Reset(k, free) =>
      && k < |m.es| && m.es[k].cap.Untyped? && free * 16 <= Pow2(m.es[k].cap.bits) && FreeAbove(m.es, k, free)
    case Rename(r) => IsRenaming(m.es, r)
    case Zombify(k, z) => k < |m.es| && IsFinalAt(m.es, k) && IsZombieOf(m.es[k].cap, z)
    case Remove(k) => k < |m.es|
  }

  function Apply(m: Mdb, s: Step): Mdb
    requires Enabled(m, s)
  {
    match s
    case Boot(slot, cap) => WriteSlot(m, slot, cap)
    case Insert(k, slot, cap) => CteInsert(m, k, slot, cap)
    case RetypeStep(k, slots, caps, _, top) => RetypeUntyped(m, k, slots, caps, top)
    case Reset(k, free) => m.(es := WithCap(m.es, k, SetFree(m.es[k].cap, free)))
    case Rename(r) => m.(es := r)
    case Zombify(k, z) => m.(es := WithCap(m.es, k, z))
    case Remove(k) => Removed(m, k)
  }

  lemma StepKeepsInv(m: Mdb, s: Step)
    requires Inv(m) && Enabled(m, s)
    ensures Inv(Apply(m, s))
  {
    hide Inv, MayBoot, MayInsert, NoChildrenAt, Ascending, FreeAbove, IsRenaming, IsFinalAt, IsZombieOf;
    match s {
      case Boot(slot, cap) => WriteSlotKeepsInv(m, slot, cap);
      case Insert(k, slot, cap) => CteInsertKeepsInv(m, k, slot, cap);
      case RetypeStep(k, slots, caps, base, top) => RetypeKeepsInv(m, k, slots, caps, base, top);
      case Reset(k, free) => SetFreeKeepsInv(m, k, free);
      case Rename(r) => RenamingKeepsInv(m, r);
      case Zombify(k, z) => ZombifyKeepsInv(m, k, z);
      case Remove(k) => RemoveKeepsInv(m, k);
    }
  }

  /** The steps are enabled one after the other, starting in m. */
  predicate IsRun(m: Mdb, run: seq<Step>)
    decreases |run|
  {
    run == [] || (Enabled(m, run[0]) && IsRun(Apply(m, run[0]), run[1..]))
  }

  function Final(m: Mdb, run: seq<Step>): Mdb
    requires IsRun(m, run)
    decreases |run|
  {
    if run == [] then m else Final(Apply(m, run[0]), run[1..])
  }

  lemma {:induction false} RunKeepsInv(m: Mdb, run: seq<Step>)
    requires Inv(m) && IsRun(m, run)
    ensures Inv(Final(m, run))
    decreases |run|
  {
    hide Inv, Enabled, Apply;
    if run != [] {
      StepKeepsInv(m, run[0]);
      RunKeepsInv(Apply(m, run[0]), run[1..]);
    }
  }

  lemma EmptyInv()
    ensures Inv(Mdb([], 0, {}))
  {
  }

  /** In every reachable state, isMDBParentOf's run is the derived caps and isFinalCapability is exact. */
  lemma ReachableChecksAreGlobal(run: seq<Step>, k: nat, j: nat)
    requires IsRun(Mdb([], 0, {}), run)
    requires k < |Final(Mdb([], 0, {}), run).es| && j < |Final(Mdb([], 0, {}), run).es|
    ensures var m := Final(Mdb([], 0, {}), run);
            && (m.es[k].revocable ==> (InRun(m.es, k, j) <==> Derived(m.es, k, j)))
            && (m.es[k].revocable && IsBadged(m.es[k].cap) ==>
                  (InRun(m.es, k, j) <==> k != j && m.es[j].lineage == MintedBy(m.es[k].id)))
            && (IsFinalAt(m.es, k) <==>
                  LoneSchedControl(m.es, k)
                  || forall x | 0 <= x < |m.es| && x != k :: !SameObjectAs(m.es[k].cap, m.es[x].cap))
  {
    EmptyInv();
    RunKeepsInv(Mdb([], 0, {}), run);
    var m := Final(Mdb([], 0, {}), run);
    hide Inv, Final, IsRun, InRun, IsFinalAt, SameObjectAs;
    if m.es[k].revocable { RunIsExactlyTheDerivedCaps(m, k, j); }
    if m.es[k].revocable && IsBadged(m.es[k].cap) { MintRunIsItsLineage(m, k, j); }
    FinalMeansNoOtherCap(m, k);
  }

  // -------------------------------------------------------------- sched control caps

  /** isFinalCapability is wrong exactly for a sched control cap alone in its list while another list has one. */
  lemma FinalIsWrongExactlyForLoneSchedControl(m: Mdb, k: nat)
    requires Inv(m) && k < |m.es|
    ensures (IsFinalAt(m.es, k) <==> forall j | 0 <= j < |m.es| && j != k :: !SameObjectAs(m.es[k].cap, m.es[j].cap))
            <==> !(LoneSchedControl(m.es, k) && exists j :: 0 <= j < |m.es| && j != k && m.es[j].cap.SchedControl?)
  {
    FinalMeansNoOtherCap(m, k);
    if LoneSchedControl(m.es, k) {
      hide Inv;
      forall j | 0 <= j < |m.es| ensures SameObjectAs(m.es[k].cap, m.es[j].cap) <==> m.es[j].cap.SchedControl? { }
    }
  }

  /** Two cores boot with one sched control cap each; each counts as final although the other exists. */
  lemma TwoCoresSchedControl()
    ensures var run := [Boot(32, SchedControl(0)), Boot(64, SchedControl(1))];
            && IsRun(Mdb([], 0, {}), run)
            && var m := Final(Mdb([], 0, {}), run);
               |m.es| == 2 && IsFinalAt(m.es, 0) && SameObjectAs(m.es[0].cap, m.es[1].cap)
  {
    var run := [Boot(32, SchedControl(0)), Boot(64, SchedControl(1))];
    var m0 := Mdb([], 0, {});
    assert run[1..] == [Boot(64, SchedControl(1))] && run[1..][1..] == [];
    assert Pow2(0) == 1;
    assert Enabled(m0, run[0]);
    var m1 := Apply(m0, run[0]);
    assert Enabled(m1, run[1]);
    assert IsRun(Apply(m1, run[1]), []);
    assert IsRun(m1, run[1..]);
    assert Final(m0, run) == Final(m1, run[1..]) == Apply(m1, run[1]);
  }
}
