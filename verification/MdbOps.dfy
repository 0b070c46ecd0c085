/**
 * The kernel operations on the derivation lists, and what holds in every state they can reach.
 */
module MdbOps {
  import opened Words
  import opened Caps
  import opened MdbList
  import opened MdbSteps

  // ------------------------------------------------------------- free index of an untyped

  function SetFree(c: Cap, free: nat): Cap
    requires c.Untyped?
  {
    Untyped(c.ptr, c.bits, free)
  }

  function MaxFreeIndex(bits: nat): (r: nat)
    requires bits >= MIN_UNTYPED_BITS
    ensures r * 16 == Pow2(bits)
  {
    Pow2Add(bits - MIN_UNTYPED_BITS, MIN_UNTYPED_BITS);
    assert Pow2(MIN_UNTYPED_BITS) == 16;
    Pow2(bits - MIN_UNTYPED_BITS)
  }

  function WithCap(es: seq<Entry>, k: nat, c: Cap): seq<Entry>
    requires k < |es|
  {
    es[k := es[k].(cap := c)]
  }

  /** Nothing derived from the untyped at k reaches past offset `free`. */
  predicate FreeAbove(es: seq<Entry>, k: nat, free: nat)
    requires k < |es| && es[k].cap.Untyped?
  {
    forall j | 0 <= j < |es| && Derived(es, k, j) :: ObjectEnd(es[j].cap) <= ObjectBase(es[k].cap) + free * 16
  }

  lemma {:induction false} SetFreeKinds(es: seq<Entry>, k: nat, free: nat)
    requires Kinds(es) && k < |es| && es[k].cap.Untyped? && FreeAbove(es, k, free)
    ensures Kinds(WithCap(es, k, SetFree(es[k].cap, free)))
  {
    var r := WithCap(es, k, SetFree(es[k].cap, free));
    forall i: nat, j: nat | i < |r| && j < |r| && Derived(r, i, j)
      ensures DerivedKind(r[i].cap, r[j].cap) && (IsBadged(r[i].cap) ==> r[i].lineage == r[j].lineage)
    {
      assert Derived(es, i, j);
    }
  }

  lemma {:induction false} SetFreeRecaps(es: seq<Entry>, k: nat, free: nat)
    requires Entries(es) && k < |es| && es[k].cap.Untyped? && free * 16 <= Pow2(es[k].cap.bits)
    ensures var r := WithCap(es, k, SetFree(es[k].cap, free)); Recapped(es, r) && Entries(r)
  {
    var r := WithCap(es, k, SetFree(es[k].cap, free));
    forall i | 0 <= i < |r| ensures EntryOk(r[i]) { assert EntryOk(es[i]); }
  }

  /** The free index of an untyped may be set to anything above the caps derived from it. */
  lemma {:induction false} SetFreeKeepsInv(m: Mdb, k: nat, free: nat)
    requires Inv(m) && k < |m.es| && m.es[k].cap.Untyped? && free * 16 <= Pow2(m.es[k].cap.bits)
    requires FreeAbove(m.es, k, free)
    ensures Inv(m.(es := WithCap(m.es, k, SetFree(m.es[k].cap, free))))
  {
    SetFreeKinds(m.es, k, free);
    SetFreeRecaps(m.es, k, free);
    RecapKeepsInv(m, WithCap(m.es, k, SetFree(m.es[k].cap, free)));
  }

  // ------------------------------------------------------------------------- cteInsert

  /** What cteInsert may put after the cap at k: a derivation of it, or a handler for an idle interrupt. */
  predicate MayInsert(m: Mdb, k: nat, cap: Cap)
    requires k < |m.es|
  {
    var src := m.es[k].cap;
    || IsDerivation(NoChildrenAt(m.es, k), src, cap)
    || (src.IrqControl? && cap.IrqHandler? && cap.irq !in m.irqs)
  }

  /** setUntypedCapAsFull */
  function SourceAfterInsert(src: Cap, cap: Cap): Cap {
    if src.Untyped? && cap.Untyped? && src.ptr == cap.ptr && src.bits == cap.bits && src.bits >= MIN_UNTYPED_BITS
    then SetFree(src, MaxFreeIndex(src.bits)) else src
  }

  function InsertedEntry(m: Mdb, k: nat, slot: nat, cap: Cap): Entry
    requires k < |m.es|
  {
    var src := m.es[k];
    var revocable := IsCapRevocable(cap, src.cap);
    Entry(slot, false, cap, revocable, revocable, m.nextId, src.ancestors + {src.id},
          if !IsBadged(cap) then Unbadged else if revocable then MintedBy(m.nextId) else src.lineage,
          Copied(src.cap, cap))
  }

  function CteInsert(m: Mdb, k: nat, slot: nat, cap: Cap): Mdb
    requires k < |m.es|
  {
    var marked := m.(es := WithCap(m.es, k, SourceAfterInsert(m.es[k].cap, cap)));
    Inserted(marked, k, InsertedEntry(m, k, slot, cap))
  }

  lemma {:induction false} DerivationIsChild(m: Mdb, k: nat, slot: nat, cap: Cap)
    requires k < |m.es| && EntryOk(m.es[k]) && !m.es[k].cap.Untyped? && MayInsert(m, k, cap)
    ensures var e := InsertedEntry(m, k, slot, cap); Child(m, k, e) && ChildLineage(m, k, e)
  {
  }

  lemma {:induction false} DerivationObject(m: Mdb, k: nat, slot: nat, cap: Cap)
    requires k < |m.es| && Irqs(m) && EntryOk(m.es[k]) && !m.es[k].cap.Untyped? && MayInsert(m, k, cap)
    ensures ChildObject(m.es, k, InsertedEntry(m, k, slot, cap))
  {
    if m.es[k].cap.IrqControl? {
      forall j | 0 <= j < |m.es| ensures ObjectOf(m.es[j].cap) != ObjectOf(cap) {
        assert m.es[j].cap.IrqHandler? ==> m.es[j].cap.irq in m.irqs;
      }
    }
  }

  /** A cap to the source's object overlaps only the untypeds above the source and caps to that object. */
  lemma {:induction false} DerivationRegion(es: seq<Entry>, k: nat, cap: Cap, j: nat)
    requires k < |es| && Regions(es) && Kinds(es) && Solid(es)
    requires !es[k].cap.Untyped? && ObjectOf(cap) == ObjectOf(es[k].cap) != NoObject
    requires j < |es| && Overlap(es[j].cap, cap)
    ensures if es[j].cap.Untyped? then Derived(es, j, k) else ObjectOf(es[j].cap) == ObjectOf(cap)
  {
    assert Overlap(es[j].cap, es[k].cap);
    if es[j].cap.Untyped? {
      assert !DerivedKind(es[k].cap, es[j].cap);
    } else if j != k {
      assert SameObjectAt(es, j, k);
    }
  }

  lemma {:induction false} DerivationIsInsertable(m: Mdb, k: nat, slot: nat, cap: Cap)
    requires k < |m.es| && EntryOk(m.es[k]) && Irqs(m) && Regions(m.es) && Kinds(m.es) && Solid(m.es)
    requires !m.es[k].cap.Untyped? && MayInsert(m, k, cap)
    ensures Insertable(m, k, InsertedEntry(m, k, slot, cap))
  {
    DerivationIsChild(m, k, slot, cap);
    DerivationObject(m, k, slot, cap);
    hide Regions;
    hide Kinds;
    hide Solid;
    forall j | 0 <= j < |m.es| && Overlap(m.es[j].cap, cap)
      ensures if m.es[j].cap.Untyped? then Derived(m.es, j, k) else ObjectOf(m.es[j].cap) == ObjectOf(cap) != NoObject
    {
      DerivationRegion(m.es, k, cap, j);
    }
  }

  lemma {:induction false} UntypedCopyIsInsertable(m: Mdb, k: nat, slot: nat, cap: Cap)
    requires k < |m.es| && EntryOk(m.es[k]) && Regions(m.es) && m.es[k].cap.Untyped? && cap == m.es[k].cap
    requires forall j | 0 <= j < |m.es| :: !Derived(m.es, k, j)
    ensures Insertable(m.(es := WithCap(m.es, k, SourceAfterInsert(m.es[k].cap, cap))), k,
              InsertedEntry(m, k, slot, cap))
  {
    var es := m.es;
    var r := WithCap(es, k, SourceAfterInsert(es[k].cap, cap));
    forall j | 0 <= j < |r| && Overlap(r[j].cap, cap)
      ensures j == k || Derived(r, j, k)
    {
      assert j != k ==> Overlap(es[k].cap, es[j].cap);
      assert j != k ==> Derived(es, j, k);
    }
  }

  /** Copying, minting, or issuing an interrupt handler keeps the invariant. */
  lemma {:induction false} CteInsertKeepsInv(m: Mdb, k: nat, slot: nat, cap: Cap)
    requires Inv(m) && k < |m.es| && MayInsert(m, k, cap)
    ensures Inv(CteInsert(m, k, slot, cap))
  {
    assert EntryOk(m.es[k]);
    hide Ids, Entries, Runs, Originals, SchedControls, Lineages, FirstBadged, Objects;
    if m.es[k].cap.Untyped? {
      NoChildrenMeansNoneDerived(m, k);
      SetFreeKeepsInv(m, k, MaxFreeIndex(m.es[k].cap.bits));
      UntypedCopyIsInsertable(m, k, slot, cap);
    } else {
      DerivationIsInsertable(m, k, slot, cap);
      assert WithCap(m.es, k, m.es[k].cap) == m.es;
    }
    InsertKeepsInv(m.(es := WithCap(m.es, k, SourceAfterInsert(m.es[k].cap, cap))), k, InsertedEntry(m, k, slot, cap));
  }

  // ----------------------------------------------------------------------- insertNewCap

  /** The caps createObject makes: unbadged, with a fresh free index. */
  predicate IsNewObject(c: Cap) {
    match c
    case Untyped(_, _, free) => free == 0
    case Endpoint(_, badge, _, _, _, _) => badge == 0
    case Notification(_, badge, _, _) => badge == 0
    case CNode(_, _, guardSize, guard) => guardSize == 0 && guard == 0
    case Thread(_) => true
    case Reply(_, _) => true
    case SchedContext(_, _) => true
    case _ => false
  }

  function NewEntry(m: Mdb, k: nat, slot: nat, cap: Cap): Entry
    requires k < |m.es|
  {
    Entry(slot, false, cap, true, true, m.nextId, m.es[k].ancestors + {m.es[k].id}, Unbadged, Given(cap))
  }

  function InsertNewCap(m: Mdb, k: nat, slot: nat, cap: Cap): Mdb
    requires k < |m.es|
  {
    Inserted(m, k, NewEntry(m, k, slot, cap))
  }

  /** Memory of the untyped at k that no cap derived from k touches. */
  predicate UnusedIn(es: seq<Entry>, k: nat, c: Cap)
    requires k < |es| && es[k].cap.Untyped?
  {
    && ObjectBase(es[k].cap) <= ObjectBase(c) && ObjectEnd(c) <= ObjectBase(es[k].cap) + FreeOffset(es[k].cap)
    && forall j | 0 <= j < |es| && Derived(es, k, j) :: !Overlap(es[j].cap, c)
  }

  lemma {:induction false} UnusedMeansUnshared(es: seq<Entry>, k: nat, cap: Cap, j: nat)
    requires k < |es| && es[k].cap.Untyped? && WellFormed(es[k].cap) && Regions(es) && Kinds(es) && UnusedIn(es, k, cap)
    requires j < |es| && Overlap(es[j].cap, cap)
    ensures es[j].cap.Untyped? && (j == k || Derived(es, j, k))
  {
    if j != k {
      assert Overlap(es[k].cap, es[j].cap);
      assert DerivedKind(es[j].cap, es[k].cap);
    }
  }

  lemma {:induction false} UnusedMeansUnnamed(es: seq<Entry>, k: nat, cap: Cap, j: nat)
    requires k < |es| && es[k].cap.Untyped? && WellFormed(es[k].cap) && Regions(es) && Kinds(es) && UnusedIn(es, k, cap)
    requires j < |es| && IsNewObject(cap) && ObjectOf(cap) != NoObject
    ensures ObjectOf(es[j].cap) != ObjectOf(cap)
  {
    if ObjectOf(es[j].cap) == ObjectOf(cap) {
      SameObjectOverlaps(es[j].cap, cap);
      UnusedMeansUnshared(es, k, cap, j);
    }
  }

  lemma {:induction false} NewObjectIsInsertable(m: Mdb, k: nat, slot: nat, cap: Cap)
    requires Kinds(m.es) && Regions(m.es) && k < |m.es| && EntryOk(m.es[k])
    requires m.es[k].cap.Untyped? && IsNewObject(cap) && WellFormed(cap) && UnusedIn(m.es, k, cap)
    ensures Insertable(m, k, NewEntry(m, k, slot, cap))
  {
    forall j | 0 <= j < |m.es| && Overlap(m.es[j].cap, cap)
      ensures m.es[j].cap.Untyped? && (j == k || Derived(m.es, j, k))
    {
      UnusedMeansUnshared(m.es, k, cap, j);
    }
    forall j | 0 <= j < |m.es| && ObjectOf(cap) != NoObject ensures ObjectOf(m.es[j].cap) != ObjectOf(cap) {
      UnusedMeansUnnamed(m.es, k, cap, j);
    }
  }

  /** Creating an object in unused memory of an untyped keeps the invariant. */
  lemma {:induction false} InsertNewCapKeepsInv(m: Mdb, k: nat, slot: nat, cap: Cap)
    requires Inv(m) && k < |m.es| && m.es[k].cap.Untyped? && IsNewObject(cap) && WellFormed(cap)
             && UnusedIn(m.es, k, cap)
    ensures Inv(InsertNewCap(m, k, slot, cap))
  {
    assert EntryOk(m.es[k]);
    NewObjectIsInsertable(m, k, slot, cap);
    InsertKeepsInv(m, k, NewEntry(m, k, slot, cap));
  }

  // ---------------------------------------------------------------- moving and zombifying

  /** Slots are renamed and CNode guards may change; nothing else does. */
  predicate IsRenaming(es: seq<Entry>, r: seq<Entry>) {
    && |r| == |es|
    && (forall i | 0 <= i < |es| :: r[i] == es[i].(slot := r[i].slot, cap := r[i].cap))
    && (forall i | 0 <= i < |es| :: IsRelabelling(es[i].cap, r[i].cap))
  }

  lemma {:induction false} RelabellingKeepsRole(a: Entry, c: Cap)
    requires EntryOk(a) && IsRelabelling(a.cap, c)
    ensures SameRole(a.cap, c) && ObjectOf(c) == ObjectOf(a.cap) && EntryOk(a.(cap := c))
  {
  }

  lemma {:induction false} RenamingRecaps(es: seq<Entry>, r: seq<Entry>)
    requires Entries(es) && IsRenaming(es, r)
    ensures Recapped(es, r) && Entries(r)
  {
    forall i | 0 <= i < |r|
      ensures EntryOk(r[i]) && SameRole(es[i].cap, r[i].cap) && KeepsObject(es, r, i)
    {
      assert IsRelabelling(es[i].cap, r[i].cap);
      RelabellingKeepsRole(es[i], r[i].cap);
    }
  }

  lemma {:induction false} RenamingKinds(es: seq<Entry>, r: seq<Entry>)
    requires Kinds(es) && IsRenaming(es, r)
    ensures Kinds(r)
  {
    forall i: nat, j: nat | i < |r| && j < |r| && Derived(r, i, j)
      ensures DerivedKind(r[i].cap, r[j].cap) && (IsBadged(r[i].cap) ==> r[i].lineage == r[j].lineage)
    {
      assert Derived(es, i, j) && IsRelabelling(es[i].cap, r[i].cap) && IsRelabelling(es[j].cap, r[j].cap);
    }
  }

  /** Moving and swapping caps between slots keeps the invariant. */
  lemma {:induction false} RenamingKeepsInv(m: Mdb, r: seq<Entry>)
    requires Inv(m) && IsRenaming(m.es, r)
    ensures Inv(m.(es := r))
  {
    RenamingRecaps(m.es, r);
    RenamingKinds(m.es, r);
    RecapKeepsInv(m, r);
  }

  /** The zombies finaliseCap and reduceZombie leave in place of a cap. */
  predicate IsZombieOf(c: Cap, z: Cap) {
    match c
    case CNode(p, r, _, _) => z.Zombie? && z.ptr == p && z.kind == ZombieCNode(r)
    case Thread(_) => z.Zombie? && z.ptr == ObjectBase(c) && z.kind == ZombieTcb
    case Zombie(p, kind, _) => z.Zombie? && z.ptr == p && z.kind == kind
    case _ => false
  }

  /**
   * A cap that is about to become a zombie is the only one to its object, so nothing is derived from it or it from one.
   */
  lemma {:induction false} ZombieHasNoKin(m: Mdb, k: nat, z: Cap, i: nat, j: nat)
    requires Kinds(m.es) && k < |m.es| && IsZombieOf(m.es[k].cap, z)
    requires forall j | 0 <= j < |m.es| && j != k :: !SameObjectAs(m.es[k].cap, m.es[j].cap)
    requires i < |m.es| && j < |m.es| && i != j && Derived(m.es, i, j)
    ensures i != k && (j == k ==> DerivedKind(m.es[i].cap, z))
  {
    assert DerivedKind(m.es[i].cap, m.es[j].cap);
    if i == k {
      SameObjectIsEqualObject(m.es[k].cap, m.es[j].cap);
    } else if j == k {
      SameObjectIsEqualObject(m.es[k].cap, m.es[i].cap);
    }
  }

  lemma {:induction false} ZombieKinds(m: Mdb, k: nat, z: Cap)
    requires Inv(m) && k < |m.es| && IsZombieOf(m.es[k].cap, z)
    requires forall j | 0 <= j < |m.es| && j != k :: !SameObjectAs(m.es[k].cap, m.es[j].cap)
    ensures Kinds(WithCap(m.es, k, z))
  {
    hide DerivedKind, IsZombieOf, SameObjectAs;
    var es, r := m.es, WithCap(m.es, k, z);
    forall i: nat, j: nat | i < |r| && j < |r| && Derived(r, i, j)
      ensures DerivedKind(r[i].cap, r[j].cap) && (IsBadged(r[i].cap) ==> r[i].lineage == r[j].lineage)
    {
      assert Derived(es, i, j);
      ZombieHasNoKin(m, k, z, i, j);
    }
  }

  lemma {:induction false} ZombieRecaps(es: seq<Entry>, k: nat, z: Cap)
    requires k < |es| && IsZombieOf(es[k].cap, z)
    requires forall j | 0 <= j < |es| && j != k :: !SameObjectAs(es[k].cap, es[j].cap)
    ensures Recapped(es, WithCap(es, k, z))
  {
    var r := WithCap(es, k, z);
    forall j | 0 <= j < |es| && j != k ensures !SameObjectAt(es, k, j) {
      SameObjectIsEqualObject(es[k].cap, es[j].cap);
    }
    assert KeepsObject(es, r, k);
  }

  /** Turning the last cap to a CNode or TCB into a zombie keeps the invariant. */
  lemma {:induction false} ZombifyKeepsInv(m: Mdb, k: nat, z: Cap)
    requires Inv(m) && k < |m.es| && IsFinalAt(m.es, k) && IsZombieOf(m.es[k].cap, z)
    ensures Inv(m.(es := WithCap(m.es, k, z)))
  {
    var r := WithCap(m.es, k, z);
    FinalMeansNoOtherCap(m, k);
    hide IsFinalAt;
    ZombieKinds(m, k, z);
    ZombieRecaps(m.es, k, z);
    forall i | 0 <= i < |r| ensures EntryOk(r[i]) { assert EntryOk(m.es[i]); }
    RecapKeepsInv(m, r);
  }

  // ---------------------------------------------------------------------------- boot caps

  /** write_slot starts a list of its own. The cap must name memory and objects nobody holds yet. */
  predicate MayBoot(m: Mdb, cap: Cap) {
    && !cap.Null? && WellFormed(cap) && !IsBadged(cap) && !cap.IrqHandler?
    && (forall j | 0 <= j < |m.es| :: !Overlap(m.es[j].cap, cap))
    && (forall j | 0 <= j < |m.es| && !cap.SchedControl? ::
          ObjectOf(m.es[j].cap) != ObjectOf(cap) || ObjectOf(cap) == NoObject)
    && (forall j | 0 <= j < |m.es| && cap.IrqControl? :: !m.es[j].cap.IrqControl? && !m.es[j].cap.IrqHandler?)
    && (forall j | 0 <= j < |m.es| && m.es[j].cap.IrqControl? :: !cap.IrqControl?)
  }

  function WriteSlot(m: Mdb, slot: nat, cap: Cap): Mdb {
    Mdb(m.es + [Entry(slot, true, cap, true, true, m.nextId, {}, Unbadged, Given(cap))], m.nextId + 1, m.irqs)
  }

  lemma {:induction false} BootDerivation(m: Mdb, slot: nat, cap: Cap, i: nat, j: nat)
    requires Ids(m) && i <= |m.es| && j <= |m.es|
    ensures Derived(WriteSlot(m, slot, cap).es, i, j) <==> i < |m.es| && j < |m.es| && Derived(m.es, i, j)
  {
  }

  lemma {:induction false} BootKeepsDerivations(m: Mdb, slot: nat, cap: Cap)
    requires Ids(m) && Entries(m.es) && Runs(m.es) && Kinds(m.es) && MayBoot(m, cap)
    ensures var r := WriteSlot(m, slot, cap); Ids(r) && Entries(r.es) && Runs(r.es) && Kinds(r.es)
  {
    hide Ids, Entries, Runs, Kinds, MayBoot, WriteSlot;
    BootKeepsIds(m, slot, cap);
    BootKeepsRuns(m, slot, cap);
    BootKeepsKinds(m, slot, cap);
  }

  lemma {:induction false} BootKeepsRuns(m: Mdb, slot: nat, cap: Cap)
    requires Ids(m) && Runs(m.es)
    ensures Runs(WriteSlot(m, slot, cap).es)
  {
    var r := WriteSlot(m, slot, cap).es;
    forall i: nat, j: nat | i < |r| && j < |r| && Derived(r, i, j)
      ensures i < j && !r[j].head && (i == j - 1 || Derived(r, i, j - 1))
    {
      BootDerivation(m, slot, cap, i, j);
      assert Derived(m.es, i, j);
      if i != j - 1 { BootDerivation(m, slot, cap, i, j - 1); }
    }
  }

  lemma {:induction false} BootKeepsKinds(m: Mdb, slot: nat, cap: Cap)
    requires Ids(m) && Kinds(m.es)
    ensures Kinds(WriteSlot(m, slot, cap).es)
  {
    hide DerivedKind;
    var r := WriteSlot(m, slot, cap).es;
    forall i: nat, j: nat | i < |r| && j < |r| && Derived(r, i, j)
      ensures DerivedKind(r[i].cap, r[j].cap) && (IsBadged(r[i].cap) ==> r[i].lineage == r[j].lineage)
    {
      BootDerivation(m, slot, cap, i, j);
      assert Derived(m.es, i, j);
    }
  }

  lemma {:induction false} BootKeepsIds(m: Mdb, slot: nat, cap: Cap)
    requires Ids(m) && Entries(m.es) && MayBoot(m, cap)
    ensures var r := WriteSlot(m, slot, cap); Ids(r) && Entries(r.es)
  {
    hide WellFormed, ObjectOf, Overlap;
    var r := WriteSlot(m, slot, cap).es;
    forall i | 0 <= i < |r| ensures EntryOk(r[i]) { assert i < |m.es| ==> EntryOk(m.es[i]); }
  }

  lemma {:induction false} BootKeepsObjects(m: Mdb, slot: nat, cap: Cap)
    requires Ids(m) && Objects(m.es) && Originals(m.es) && SchedControls(m.es) && MayBoot(m, cap)
    ensures var r := WriteSlot(m, slot, cap).es; Objects(r) && Originals(r) && SchedControls(r)
  {
    var es, r := m.es, WriteSlot(m, slot, cap).es;
    forall i: nat, j: nat | i < j < |r| && SameObjectAt(r, i, j) && !r[j].cap.SchedControl?
      ensures !r[j].head && SameObjectAt(r, j - 1, j)
    {
      assert SameObjectAt(es, i, j);
      assert SameObjectAt(es, j - 1, j);
    }
    forall i: nat, j: nat | i < |r| && j < |r| && i != j && SameObjectAt(r, i, j)
                            && r[i].revocable && !IsBadged(r[i].cap) && !r[i].cap.SchedControl?
      ensures Derived(r, i, j)
    {
      assert SameObjectAt(es, i, j);
    }
    forall i: nat, j: nat | i < j < |r| && r[j].cap.SchedControl? && !r[j].head && r[i].revocable
      && ReachesPrev(r, i, j)
      ensures Derived(r, i, j)
    {
      assert ReachesPrev(es, i, j);
    }
  }

  lemma {:induction false} BootKeepsLineages(m: Mdb, slot: nat, cap: Cap)
    requires Lineages(m.es) && FirstBadged(m.es) && MayBoot(m, cap)
    ensures var r := WriteSlot(m, slot, cap).es; Lineages(r) && FirstBadged(r)
  {
    var es, r := m.es, WriteSlot(m, slot, cap).es;
    forall i: nat, j: nat | i < |r| && j < |r| && SameLineage(r, i, j) ensures SameBadge(r[i].cap, r[j].cap) {
      assert SameLineage(es, i, j);
    }
    forall i: nat, j: nat | i < j < |r| && SameLineage(r, i, j) ensures !r[j].head && SameLineage(r, j - 1, j) {
      assert SameLineage(es, i, j);
      assert SameLineage(es, j - 1, j);
    }
    forall j: nat | j < |r| && IsBadged(r[j].cap)
      ensures r[j].firstBadged <==> (j == 0 || r[j].head || !SameLineage(r, j - 1, j))
    {
      assert IsBadged(es[j].cap) && (j > 0 ==> (SameLineage(es, j - 1, j) <==> SameLineage(r, j - 1, j)));
    }
  }

  lemma {:induction false} BootKeepsRegions(m: Mdb, slot: nat, cap: Cap)
    requires Ids(m) && Regions(m.es) && Solid(m.es) && Irqs(m) && MayBoot(m, cap)
    ensures var r := WriteSlot(m, slot, cap); Regions(r.es) && Solid(r.es) && Irqs(r)
  {
    var es, r := m.es, WriteSlot(m, slot, cap).es;
    forall i: nat, j: nat | i < |r| && j < |r| && i != j && Overlap(r[i].cap, r[j].cap)
      ensures i < |es| && j < |es| && Overlap(es[i].cap, es[j].cap)
    {
      OverlapSymmetric(r[i].cap, r[j].cap);
    }
    hide Overlap;
    forall i: nat, j: nat | i < |r| && j < |r| && i != j && r[i].cap.Untyped? && Overlap(r[i].cap, r[j].cap)
      ensures Derived(r, i, j) || Derived(r, j, i)
    {
      assert Overlap(es[i].cap, es[j].cap);
    }
    forall i: nat, j: nat | i < |r| && j < |r| && i != j && !r[i].cap.Untyped? && !r[j].cap.Untyped?
                            && Overlap(r[i].cap, r[j].cap)
      ensures SameObjectAt(r, i, j)
    {
      assert SameObjectAt(es, i, j);
    }
    forall i: nat, j: nat | i < |r| && j < |r| && i != j && r[i].cap.IrqControl?
                            && (r[j].cap.IrqControl? || r[j].cap.IrqHandler?)
      ensures Derived(r, i, j)
    {
      assert Derived(es, i, j);
    }
  }

  lemma {:induction false} BootKeepsActive(m: Mdb, slot: nat, cap: Cap)
    requires Active(m)
    ensures Active(WriteSlot(m, slot, cap))
  {
    var r := WriteSlot(m, slot, cap);
    forall irq | irq in r.irqs ensures HasHandler(r.es, irq) {
      assert HasHandler(m.es, irq);
      var j :| 0 <= j < |m.es| && m.es[j].cap == IrqHandler(irq);
      assert r.es[j].cap == IrqHandler(irq);
    }
  }

  /** Writing a boot cap keeps the invariant. */
  lemma {:induction false} WriteSlotKeepsInv(m: Mdb, slot: nat, cap: Cap)
    requires Inv(m) && MayBoot(m, cap)
    ensures Inv(WriteSlot(m, slot, cap))
  {
    hide Ids, Entries, Runs, Kinds, Objects, Originals, SchedControls, Lineages, FirstBadged, Regions, Solid, Irqs;
    hide Active;
    hide MayBoot, WriteSlot;
    BootKeepsDerivations(m, slot, cap);
    BootKeepsObjects(m, slot, cap);
    BootKeepsLineages(m, slot, cap);
    BootKeepsRegions(m, slot, cap);
    BootKeepsActive(m, slot, cap);
  }
}
