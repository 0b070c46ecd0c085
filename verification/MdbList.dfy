/**
 * The capability derivation lists, as one sequence.
 *
 * Every list starts at an entry marked `head` (a slot whose mdbPrev is null); the lists are laid
 * end to end, so one position order covers all of them. Each entry also carries a history that the
 * kernel does not store: a serial number `id`, the serial numbers of every cap it was derived from
 * (`ancestors`), for badged caps the mint it descends from (`lineage`), and the cap it was made from
 * (`origin`). The invariant ties the kernel's local flags to that history.
 */
module MdbList {
  import opened Caps

  datatype Lineage = Unbadged | MintedBy(mint: nat)

  /** How a cap came about: with its object or at boot, or by cteInsert from a cap that was then `src`. */
  datatype Origin = Given(made: Cap) | Copied(src: Cap, made: Cap)

  datatype Entry = Entry(
    slot: nat, head: bool, cap: Cap, revocable: bool, firstBadged: bool,
    id: nat, ancestors: set<nat>, lineage: Lineage, origin: Origin)

  /** `nextId` bounds the serial numbers handed out; `irqs` are the interrupts not in IRQInactive. */
  datatype Mdb = Mdb(es: seq<Entry>, nextId: nat, irqs: set<nat>)

  // ------------------------------------------------------- the kernel's local checks

  predicate IsMdbParentOf(a: Entry, b: Entry) {
    && a.revocable
    && SameRegionAs(a.cap, b.cap)
    && match a.cap
       case Endpoint(_, badge, _, _, _, _) =>
         badge == 0 || (b.cap.Endpoint? && badge == b.cap.badge && !b.firstBadged)
       case Notification(_, badge, _, _) =>
         badge == 0 || (b.cap.Notification? && badge == b.cap.badge && !b.firstBadged)
       case _ => true
  }

  predicate HasNext(es: seq<Entry>, k: nat)
    requires k < |es|
  {
    k + 1 < |es| && !es[k + 1].head
  }

  predicate HasPrev(es: seq<Entry>, k: nat)
    requires k < |es|
  {
    k > 0 && !es[k].head
  }

  predicate IsFinalAt(es: seq<Entry>, k: nat)
    requires k < |es|
  {
    && !(HasPrev(es, k) && SameObjectAs(es[k - 1].cap, es[k].cap))
    && !(HasNext(es, k) && SameObjectAs(es[k].cap, es[k + 1].cap))
  }

  predicate NoChildrenAt(es: seq<Entry>, k: nat)
    requires k < |es|
  {
    !(HasNext(es, k) && IsMdbParentOf(es[k], es[k + 1]))
  }

  /** The run that cteRevoke walks: every entry from k+1 to j is linked and accepted by k. */
  predicate InRun(es: seq<Entry>, k: nat, j: nat)
    requires k < |es| && j < |es|
  {
    k < j && forall x | k < x <= j :: !es[x].head && IsMdbParentOf(es[k], es[x])
  }

  // ---------------------------------------------------------------------- invariant

  /** Entry j was derived, directly or through other caps, from entry i. */
  predicate Derived(es: seq<Entry>, i: nat, j: nat)
    requires i < |es| && j < |es|
  {
    es[i].id in es[j].ancestors
  }

  predicate DerivedKind(a: Cap, b: Cap) {
    match a
    case Untyped(_, _, _) =>
      IsPhysical(b) && ObjectBase(a) <= ObjectBase(b) && ObjectEnd(b) <= ObjectBase(a) + FreeOffset(a)
    case IrqControl => b.IrqHandler?
    case _ => ObjectOf(a) == ObjectOf(b) != NoObject && RightsOf(b) <= RightsOf(a)
  }

  /** A cap that is not just another copy: it is new, it names another object than its source, or has another badge. */
  predicate IsOriginal(o: Origin) {
    || o.Given? || o.made.Untyped?
    || ObjectOf(o.made) != ObjectOf(o.src) || BadgeOf(o.made) != BadgeOf(o.src)
  }

  /** What may become of a cap while it exists: a zombie, another guard, another free index. */
  predicate MayBecome(made: Cap, c: Cap) {
    || c.Zombie?
    || (made.Untyped? && c.Untyped? && c.ptr == made.ptr && c.bits == made.bits)
    || (SameBut(made, c) && RightsOf(c) == RightsOf(made) && BadgeOf(c) == BadgeOf(made))
  }

  predicate Ids(m: Mdb) {
    && (forall i | 0 <= i < |m.es| :: m.es[i].id < m.nextId)
    && (forall i, a | 0 <= i < |m.es| && a in m.es[i].ancestors :: a < m.nextId)
    && (forall i, j | 0 <= i < |m.es| && 0 <= j < |m.es| && i != j :: m.es[i].id != m.es[j].id)
  }

  predicate EntryOk(e: Entry) {
    && !e.cap.Null? && WellFormed(e.cap)
    && (e.cap.Untyped? ==> e.revocable)
    && (e.lineage.MintedBy? <==> IsBadged(e.cap))
    && (IsBadged(e.cap) && e.revocable ==> e.lineage.mint == e.id)
    && (IsBadged(e.cap) && !e.revocable ==> e.lineage.mint in e.ancestors)
    && (e.revocable <==> IsOriginal(e.origin)) && MayBecome(e.origin.made, e.cap)
  }

  predicate Entries(es: seq<Entry>) {
    && (es != [] ==> es[0].head)
    && (forall i | 0 <= i < |es| :: EntryOk(es[i]))
  }

  /** The caps derived from a cap directly follow it, in its own list. */
  predicate Runs(es: seq<Entry>) {
    forall i, j | 0 <= i < |es| && 0 <= j < |es| && Derived(es, i, j) ::
      i < j && !es[j].head && (i == j - 1 || Derived(es, i, j - 1))
  }

  predicate Kinds(es: seq<Entry>) {
    forall i, j | 0 <= i < |es| && 0 <= j < |es| && Derived(es, i, j) ::
      DerivedKind(es[i].cap, es[j].cap) && (IsBadged(es[i].cap) ==> es[i].lineage == es[j].lineage)
  }

  predicate SameObjectAt(es: seq<Entry>, i: nat, j: nat)
    requires i < |es| && j < |es|
  {
    ObjectOf(es[i].cap) == ObjectOf(es[j].cap) && ObjectOf(es[i].cap) != NoObject
  }

  /** Caps to one object are contiguous in one list. Sched control caps are the exception. */
  predicate Objects(es: seq<Entry>) {
    forall i, j | 0 <= i < j < |es| && SameObjectAt(es, i, j) && !es[j].cap.SchedControl? ::
      !es[j].head && SameObjectAt(es, j - 1, j)
  }

  /** A revocable unbadged cap is the original: every other cap to the object was derived from it. */
  predicate Originals(es: seq<Entry>) {
    forall i, j | 0 <= i < |es| && 0 <= j < |es| && i != j && SameObjectAt(es, i, j)
                  && es[i].revocable && !IsBadged(es[i].cap) && !es[i].cap.SchedControl? ::
      Derived(es, i, j)
  }

  /** The entry before j is i or was derived from i. */
  predicate ReachesPrev(es: seq<Entry>, i: nat, j: nat)
    requires i < |es| && 0 < j < |es|
  {
    i == j - 1 || Derived(es, i, j - 1)
  }

  /** Sched control caps: one list per core, holding the boot cap and its copies. */
  predicate SchedControls(es: seq<Entry>) {
    && (forall j | 0 <= j < |es| && es[j].cap.SchedControl? && !es[j].head ::
          j > 0 && es[j - 1].cap.SchedControl?)
    && (forall i, j | 0 <= i < j < |es| && es[j].cap.SchedControl? && !es[j].head && es[i].revocable
                      && ReachesPrev(es, i, j) :: Derived(es, i, j))
  }

  predicate SameLineage(es: seq<Entry>, i: nat, j: nat)
    requires i < |es| && j < |es|
  {
    es[i].lineage.MintedBy? && es[i].lineage == es[j].lineage
  }

  predicate SameBadge(a: Cap, b: Cap) {
    IsBadged(a) && IsBadged(b) && ObjectOf(a) == ObjectOf(b) && a.badge == b.badge
  }

  /** The copies of one mint are contiguous and agree on object and badge. */
  predicate Lineages(es: seq<Entry>) {
    && (forall i, j | 0 <= i < j < |es| && SameLineage(es, i, j) :: !es[j].head && SameLineage(es, j - 1, j))
    && (forall i, j | 0 <= i < |es| && 0 <= j < |es| && SameLineage(es, i, j) :: SameBadge(es[i].cap, es[j].cap))
  }

  /** mdbFirstBadged marks exactly the first surviving cap of each mint. */
  predicate FirstBadged(es: seq<Entry>) {
    forall j | 0 <= j < |es| && IsBadged(es[j].cap) ::
      es[j].firstBadged <==> (j == 0 || es[j].head || !SameLineage(es, j - 1, j))
  }

  /** Untyped memory is shared only along derivations. */
  predicate Regions(es: seq<Entry>) {
    forall i, j | 0 <= i < |es| && 0 <= j < |es| && i != j && es[i].cap.Untyped? && Overlap(es[i].cap, es[j].cap) ::
      Derived(es, i, j) || Derived(es, j, i)
  }

  /** Objects in memory do not overlap: two caps that do name the same object. A zombie overlaps none. */
  predicate Solid(es: seq<Entry>) {
    forall i, j | 0 <= i < |es| && 0 <= j < |es| && i != j && !es[i].cap.Untyped? && !es[j].cap.Untyped?
                  && Overlap(es[i].cap, es[j].cap) :: SameObjectAt(es, i, j)
  }

  predicate Irqs(m: Mdb) {
    && (forall i, j | 0 <= i < |m.es| && 0 <= j < |m.es| && i != j && m.es[i].cap.IrqControl?
                      && (m.es[j].cap.IrqControl? || m.es[j].cap.IrqHandler?) :: Derived(m.es, i, j))
    && (forall j | 0 <= j < |m.es| && m.es[j].cap.IrqHandler? :: m.es[j].cap.irq in m.irqs)
  }

  predicate HasHandler(es: seq<Entry>, irq: nat) {
    exists j :: 0 <= j < |es| && es[j].cap == IrqHandler(irq)
  }

  /** No interrupt stays active once its last handler is gone. */
  predicate Active(m: Mdb) {
    forall irq | irq in m.irqs :: HasHandler(m.es, irq)
  }

  predicate Inv(m: Mdb) {
    && Ids(m) && Entries(m.es) && Runs(m.es) && Kinds(m.es) && Objects(m.es) && Originals(m.es)
    && SchedControls(m.es) && Lineages(m.es) && FirstBadged(m.es) && Regions(m.es) && Solid(m.es) && Irqs(m)
    && Active(m)
  }

  // ------------------------------------------- local checks equal the global facts

  /** A revocable cap accepts everything derived from it. */
  lemma {:induction false} DerivedIsAccepted(m: Mdb, i: nat, j: nat)
    requires Inv(m) && i < |m.es| && j < |m.es| && Derived(m.es, i, j) && m.es[i].revocable
    ensures i < j && !m.es[j].head && IsMdbParentOf(m.es[i], m.es[j])
  {
    var a, b := m.es[i].cap, m.es[j].cap;
    assert DerivedKind(a, b);
    if a.Untyped? {
      UntypedRegionIsContainment(a, b);
    } else if IsBadged(a) {
      SameObjectIsEqualObject(a, b);
      assert SameLineage(m.es, i, j) && SameLineage(m.es, j - 1, j);
    } else if !a.IrqControl? {
      SameObjectIsEqualObject(a, b);
    }
  }

  lemma {:induction false} ContainedIsDerived(es: seq<Entry>, i: nat, j: nat)
    requires Entries(es) && Runs(es) && Regions(es) && i < j < |es| && es[i].cap.Untyped?
    requires IsMdbParentOf(es[i], es[j])
    ensures Derived(es, i, j)
  {
    assert EntryOk(es[i]) && EntryOk(es[j]);
    UntypedRegionIsContainment(es[i].cap, es[j].cap);
    assert Overlap(es[i].cap, es[j].cap);
    assert !Derived(es, j, i);
  }

  lemma LineageOfMint(a: Entry, b: Entry)
    requires EntryOk(a) && EntryOk(b) && a.revocable && IsBadged(a.cap) && a.lineage == b.lineage && a.id != b.id
    ensures a.id in b.ancestors
  {
  }

  lemma {:induction false} ReachesLineage(es: seq<Entry>, i: nat, j: nat)
    requires Entries(es) && Kinds(es) && i < j < |es| && IsBadged(es[i].cap) && ReachesPrev(es, i, j)
    ensures SameLineage(es, i, j - 1)
  {
    assert EntryOk(es[i]);
  }

  lemma {:induction false} NextOfMintIsDerived(m: Mdb, i: nat, j: nat)
    requires Ids(m) && Entries(m.es) && Kinds(m.es) && FirstBadged(m.es)
    requires i < j < |m.es| && !m.es[j].head && IsBadged(m.es[i].cap) && IsMdbParentOf(m.es[i], m.es[j])
    requires ReachesPrev(m.es, i, j)
    ensures Derived(m.es, i, j)
  {
    var es := m.es;
    assert m.es[i].id != m.es[j].id;
    ReachesLineage(es, i, j);
    assert EntryOk(es[i]) && EntryOk(es[j]);
    hide Ids, Kinds, Entries, EntryOk, ReachesPrev, SameRegionAs;
    assert SameLineage(es, j - 1, j);
    LineageOfMint(es[i], es[j]);
  }

  lemma {:induction false} NextOriginalIsDerived(m: Mdb, i: nat, j: nat)
    requires Originals(m.es) && SchedControls(m.es) && Irqs(m)
    requires i < j < |m.es| && !m.es[j].head && m.es[i].revocable && !IsBadged(m.es[i].cap) && ReachesPrev(m.es, i, j)
    requires if m.es[i].cap.IrqControl? then m.es[j].cap.IrqControl? || m.es[j].cap.IrqHandler?
             else SameObjectAt(m.es, i, j)
    ensures Derived(m.es, i, j)
  {
  }

  /** Past the caps derived from i, the next entry is accepted by i only if it was derived from i too. */
  lemma {:induction false} AcceptedNextIsDerived(m: Mdb, i: nat, j: nat)
    requires Inv(m) && i < j < |m.es| && !m.es[j].head && IsMdbParentOf(m.es[i], m.es[j])
    requires ReachesPrev(m.es, i, j)
    ensures Derived(m.es, i, j)
  {
    hide Ids, Entries, Runs, Kinds, Objects, SchedControls, Lineages, FirstBadged, Regions, Solid, Irqs, Active;
    var es := m.es;
    var a, b := es[i].cap, es[j].cap;
    if a.Untyped? {
      ContainedIsDerived(es, i, j);
    } else if IsBadged(a) {
      NextOfMintIsDerived(m, i, j);
    } else {
      SameObjectIsEqualObject(a, b);
      NextOriginalIsDerived(m, i, j);
    }
  }

  lemma {:induction false} DerivedPrefix(es: seq<Entry>, i: nat, j: nat, x: nat)
    requires Runs(es) && i < x <= j < |es| && Derived(es, i, j)
    ensures Derived(es, i, x)
    decreases j - x
  {
    if x < j { DerivedPrefix(es, i, j, x + 1); }
  }

  lemma {:induction false} RunIsDerived(es: seq<Entry>, i: nat, j: nat)
    requires i < |es| && j < |es| && InRun(es, i, j)
    requires forall x | i < x < |es| && !es[x].head && IsMdbParentOf(es[i], es[x]) && ReachesPrev(es, i, x) ::
             Derived(es, i, x)
    ensures Derived(es, i, j)
    decreases j
  {
    if i < j - 1 { RunIsDerived(es, i, j - 1); }
    assert ReachesPrev(es, i, j);
  }

  /**
   * The derivation theorem: the run of list neighbours that a revocable cap accepts is exactly the set
   * of caps that were ever derived from it and survive, wherever they are.
   */
  lemma {:induction false} RunIsExactlyTheDerivedCaps(m: Mdb, i: nat, j: nat)
    requires Inv(m) && i < |m.es| && j < |m.es| && m.es[i].revocable
    ensures InRun(m.es, i, j) <==> Derived(m.es, i, j)
  {
    if Derived(m.es, i, j) {
      forall x | i < x <= j
        ensures !m.es[x].head && IsMdbParentOf(m.es[i], m.es[x])
      {
        DerivedPrefix(m.es, i, j, x);
        DerivedIsAccepted(m, i, x);
      }
    }
    if InRun(m.es, i, j) {
      forall x | i < x < |m.es| && !m.es[x].head && IsMdbParentOf(m.es[i], m.es[x]) && ReachesPrev(m.es, i, x)
        ensures Derived(m.es, i, x)
      {
        AcceptedNextIsDerived(m, i, x);
      }
      RunIsDerived(m.es, i, j);
    }
  }

  /** A badged mint accepts exactly the surviving copies of that mint, never those of another. */
  lemma {:induction false} MintRunIsItsLineage(m: Mdb, i: nat, j: nat)
    requires Inv(m) && i < |m.es| && j < |m.es| && m.es[i].revocable && IsBadged(m.es[i].cap)
    ensures InRun(m.es, i, j) <==> i != j && m.es[j].lineage == MintedBy(m.es[i].id)
  {
    RunIsExactlyTheDerivedCaps(m, i, j);
  }

  /** ensureNoChildren, which looks one slot ahead, decides whether any derived cap survives. */
  lemma {:induction false} NoChildrenMeansNoneDerived(m: Mdb, k: nat)
    requires Inv(m) && k < |m.es| && m.es[k].revocable
    ensures NoChildrenAt(m.es, k) <==> forall j | 0 <= j < |m.es| :: !Derived(m.es, k, j)
  {
    if NoChildrenAt(m.es, k) {
      forall j | 0 <= j < |m.es| ensures !Derived(m.es, k, j) {
        if Derived(m.es, k, j) {
          DerivedPrefix(m.es, k, j, k + 1);
          DerivedIsAccepted(m, k, k + 1);
        }
      }
    } else {
      RunIsExactlyTheDerivedCaps(m, k, k + 1);
    }
  }

  lemma {:induction false} ObjectNeighbour(es: seq<Entry>, i: nat, j: nat)
    requires Objects(es) && i < j < |es| && SameObjectAt(es, i, j) && !es[j].cap.SchedControl?
    ensures !es[i + 1].head && SameObjectAt(es, i, i + 1)
    decreases j
  {
    assert SameObjectAt(es, j - 1, j);
    if i + 1 < j { ObjectNeighbour(es, i, j - 1); }
  }

  lemma {:induction false} OtherCapMeansNotFinal(m: Mdb, k: nat, j: nat)
    requires Inv(m) && k < |m.es| && j < |m.es| && j != k && !m.es[k].cap.SchedControl?
    requires SameObjectAs(m.es[k].cap, m.es[j].cap)
    ensures !IsFinalAt(m.es, k)
  {
    SameObjectIsEqualObject(m.es[k].cap, m.es[j].cap);
    if j < k {
      assert SameObjectAt(m.es, j, k) && SameObjectAt(m.es, k - 1, k);
      SameObjectIsEqualObject(m.es[k - 1].cap, m.es[k].cap);
    } else {
      assert SameObjectAt(m.es, k, j);
      ObjectNeighbour(m.es, k, j);
      SameObjectIsEqualObject(m.es[k].cap, m.es[k + 1].cap);
    }
  }

  /** A sched control cap with no other in its list. */
  predicate LoneSchedControl(es: seq<Entry>, k: nat)
    requires k < |es|
  {
    es[k].cap.SchedControl? && es[k].head && (!HasNext(es, k) || !es[k + 1].cap.SchedControl?)
  }

  /** For sched control caps isFinalCapability sees only its own list: it is true exactly for a list of one. */
  lemma SchedControlIsFinalInItsList(m: Mdb, k: nat)
    requires Inv(m) && k < |m.es| && m.es[k].cap.SchedControl?
    ensures IsFinalAt(m.es, k) <==> LoneSchedControl(m.es, k)
    ensures !LoneSchedControl(m.es, k) ==> exists j :: 0 <= j < |m.es| && j != k && m.es[j].cap.SchedControl?
  {
    assert m.es[0].head;
    if !m.es[k].head { assert m.es[k - 1].cap.SchedControl?; }
  }

  /**
   * isFinalCapability, which looks at two neighbours, decides whether any other cap names the object;
   * only for a sched control cap it may say so although another list has one.
   */
  lemma {:induction false} FinalMeansNoOtherCap(m: Mdb, k: nat)
    requires Inv(m) && k < |m.es|
    ensures IsFinalAt(m.es, k) <==>
            LoneSchedControl(m.es, k) || forall j | 0 <= j < |m.es| && j != k :: !SameObjectAs(m.es[k].cap, m.es[j].cap)
  {
    if m.es[k].cap.SchedControl? {
      SchedControlIsFinalInItsList(m, k);
      hide Inv;
      if !LoneSchedControl(m.es, k) {
        var j :| 0 <= j < |m.es| && j != k && m.es[j].cap.SchedControl?;
        assert SameObjectAs(m.es[k].cap, m.es[j].cap);
      }
    } else {
      FinalMeansNoOtherObjectCap(m, k);
    }
  }

  lemma {:induction false} FinalMeansNoOtherObjectCap(m: Mdb, k: nat)
    requires Inv(m) && k < |m.es| && !m.es[k].cap.SchedControl?
    ensures IsFinalAt(m.es, k) <==>
            forall j | 0 <= j < |m.es| && j != k :: !SameObjectAs(m.es[k].cap, m.es[j].cap)
  {
    forall j | 0 <= j < |m.es| && j != k && SameObjectAs(m.es[k].cap, m.es[j].cap)
      ensures !IsFinalAt(m.es, k)
    {
      OtherCapMeansNotFinal(m, k, j);
    }
    if HasPrev(m.es, k) {
      SameObjectIsEqualObject(m.es[k - 1].cap, m.es[k].cap);
      SameObjectIsEqualObject(m.es[k].cap, m.es[k - 1].cap);
    }
  }
}
