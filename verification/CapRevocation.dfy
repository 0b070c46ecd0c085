/** cteRevoke, and what it means for memory that no cap is left where none can reach it. */
module CapRevocation {
  import opened Words
  import opened Caps
  import opened MdbList
  import opened MdbOps
  import opened CSpace
  import opened CapObjects
  import opened CapSlots
  import opened CapReach
  import opened CapDeletion

  /** The caps left by a revocation of the cap numbered `id`: all but those derived from it. */
  function NotDerived(es: seq<Entry>, id: nat): set<Entry> {
    set x | x in Cores(es) && id !in x.ancestors
  }

  /** The slot after s that s accepts holds a cap derived from the one in s. */
  lemma AcceptedNext(mem: Memory, m: Mdb, k: nat)
    requires Represents(mem, m) && k < |m.es| && NeighboursIn(mem, m.es[k].slot)
    requires mem[m.es[k].slot].next != 0 && MdbParentOf(mem[m.es[k].slot], mem[mem[m.es[k].slot].next])
    ensures k + 1 < |m.es| && m.es[k + 1].slot == mem[m.es[k].slot].next && Derived(m.es, k, k + 1)
  {
    assert Holds(mem, m.es, k);
    assert Holds(mem, m.es, k + 1);
    hide SameRegionAs;
    assert ReachesPrev(m.es, k, k + 1);
    AcceptedNextIsDerived(m, k, k + 1);
  }

  /** When s accepts no next slot, nothing anywhere is derived from the cap in s. */
  lemma RejectedNext(mem: Memory, m: Mdb, k: nat)
    requires Represents(mem, m) && k < |m.es| && NeighboursIn(mem, m.es[k].slot) && m.es[k].revocable
    requires NoChildren(mem, m.es[k].slot)
    ensures forall j | 0 <= j < |m.es| :: !Derived(m.es, k, j)
  {
    AllNonNull(m.es);
    ChecksAgree(mem, m.es, k);
    NoChildrenMeansNoneDerived(m, k);
  }

  lemma EmptyHasNoEntry(mem: Memory, m: Mdb, s: nat, k: nat)
    requires Represents(mem, m) && s in mem && mem[s] == EMPTY_CTE
    ensures !Occupies(m.es, k, s)
  {
    if Occupies(m.es, k, s) { OccupiedIsNonNull(mem, m, k); }
  }

  /** The caps of a childless untyped's memory are all gone: no slot in there holds anything. */
  lemma ChildlessMemoryIsEmpty(mem: Memory, m: Mdb, s: nat, k: nat, x: nat)
    requires Represents(mem, m) && AllBacked(mem) && Housed(mem) && Occupies(m.es, k, s) && m.es[k].cap.Untyped?
    requires forall j | 0 <= j < |m.es| :: !Derived(m.es, k, j)
    requires x in mem && ObjectBase(m.es[k].cap) <= x < ObjectEnd(m.es[k].cap)
    ensures mem[x] == EMPTY_CTE
  {
    assert EntryOk(m.es[k]);
    if !mem[x].cap.Null? {
      assert Named(mem, x);
      var t :| t in mem && Names(mem[t].cap, x);
      NamesInside(mem, t, x);
      var _ := SlotsAreDerived(mem, m, k, t);
    }
    NullIsEmpty(mem, m, x);
  }

  /** A slot inside an object is empty unless a cap to that object, or what remains of one, is left. */
  lemma ForgottenSlotIsEmpty(mem: Memory, m: Mdb, c: Cap, i: nat)
    requires Represents(mem, m) && AllBacked(mem) && Housed(mem) && HasSlots(c) && WellFormed(c)
    requires i < Capacity(c) && SlotAt(c, i) in mem
    ensures mem[SlotAt(c, i)] == EMPTY_CTE || exists t :: t in mem && HasSlots(mem[t].cap) && Overlap(mem[t].cap, c)
  {
    var x := SlotAt(c, i);
    SlotsAreInside(c, i);
    if mem[x].cap.Null? {
      NullIsEmpty(mem, m, x);
    } else {
      assert Named(mem, x);
      var t :| t in mem && Names(mem[t].cap, x);
      NamesInside(mem, t, x);
      assert Overlap(mem[t].cap, c);
    }
  }

  /** An object with slots in the memory of an untyped was made from it. */
  lemma SlotsAreDerived(mem: Memory, m: Mdb, k: nat, t: nat) returns (j: nat)
    requires Represents(mem, m) && k < |m.es| && m.es[k].cap.Untyped? && t in mem && HasSlots(mem[t].cap)
    requires Overlap(m.es[k].cap, mem[t].cap)
    ensures j < |m.es| && m.es[j].cap == mem[t].cap && Derived(m.es, k, j)
  {
    j := OccupiedIndex(mem, m, t);
    assert j != k;
    assert Derived(m.es, k, j) || Derived(m.es, j, k);
    assert Derived(m.es, j, k) ==> DerivedKind(m.es[j].cap, m.es[k].cap);
  }

  /** A new object is empty in all its slots, although retype looks at none of them. */
  lemma FreshObjectIsEmpty(mem: Memory, m: Mdb, k: nat, c: Cap, x: nat)
    requires Represents(mem, m) && AllBacked(mem) && Housed(mem) && k < |m.es| && m.es[k].cap.Untyped?
    requires IsPhysical(c) && UnusedIn(m.es, k, c) && x in mem && ObjectBase(c) <= x < ObjectEnd(c)
    ensures mem[x] == EMPTY_CTE
  {
    UnusedIsInside(mem, m, k, c);
    hide Represents, AllBacked, Names, ObjectBase, ObjectEnd, Overlap, IsPhysical;
    if !mem[x].cap.Null? {
      assert Named(mem, x);
      var t :| t in mem && Names(mem[t].cap, x);
      NamesInside(mem, t, x);
      SharedAddress(m.es[k].cap, mem[t].cap, x);
      SharedAddress(mem[t].cap, c, x);
      var _ := SlotsAreDerived(mem, m, k, t);
    }
    NullIsEmpty(mem, m, x);
  }

  lemma SharedAddress(a: Cap, b: Cap, x: nat)
    requires ObjectBase(a) <= x < ObjectEnd(a) && ObjectBase(b) <= x < ObjectEnd(b)
    requires (a.Untyped? || HasSlots(a)) && (HasSlots(b) || IsPhysical(b))
    ensures Overlap(a, b)
  {
  }

  lemma UnusedIsInside(mem: Memory, m: Mdb, k: nat, c: Cap)
    requires Represents(mem, m) && k < |m.es| && m.es[k].cap.Untyped? && UnusedIn(m.es, k, c)
    ensures ObjectBase(m.es[k].cap) <= ObjectBase(c) && ObjectEnd(c) <= ObjectEnd(m.es[k].cap) <= WORD
  {
    assert EntryOk(m.es[k]);
  }

  lemma NamesInside(mem: Memory, t: nat, x: nat)
    requires AllBacked(mem) && t in mem && Names(mem[t].cap, x) && x < WORD
    ensures var c := mem[t].cap; HasSlots(c) && ObjectBase(c) <= x < ObjectEnd(c) && !c.Null? && mem[t] != EMPTY_CTE
  {
    var c := mem[t].cap;
    BackedAt(mem, t);
    var i: nat :| i < Counted(c) && x == SlotAt(c, i);
    SlotsAreInside(c, i);
  }

  // ---------------------------------------------------------------------- caps that all others come from

  /** By its history not a copy: it came with its object, or it was issued for it. */
  predicate IsSource(e: Entry) {
    IsOriginal(e.origin) && ObjectOf(e.cap) != NoObject && !IsBadged(e.cap) && !e.cap.SchedControl?
  }

  /** The slot has the cap it had, and no other slot has one to the same object. */
  predicate IsLeftAlone(m0: Memory, mem: Memory, s: nat) {
    && s in m0 && s in mem && mem[s].cap == m0[s].cap
    && forall x | x in mem && x != s :: ObjectOf(mem[x].cap) != ObjectOf(m0[s].cap)
  }

  /** Every other cap to the object was derived from such a cap. */
  lemma SourceIsAncestor(m: Mdb, k: nat, j: nat)
    requires Inv(m) && k < |m.es| && j < |m.es| && j != k && IsSource(m.es[k]) && SameObjectAt(m.es, k, j)
    ensures Derived(m.es, k, j)
  {
    assert EntryOk(m.es[k]);
  }

  lemma SourceIsLeftAlone(mem0: Memory, m0: Mdb, mem: Memory, m: Mdb, s: nat, k0: nat)
    requires Represents(mem0, m0) && Represents(mem, m) && Occupies(m0.es, k0, s) && IsSource(m0.es[k0])
    requires var doomed := Doomed(m0.es, m0.es[k0].id);
             m0.es[k0].id !in doomed && Outside(m.es, doomed) == Outside(m0.es, doomed)
    requires NoneDerived(m.es, s)
    ensures IsLeftAlone(mem0, mem, s)
  {
    StillThere(m0, m, s, k0, Doomed(m0.es, m0.es[k0].id));
    var k: nat :| Occupies(m.es, k, s) && Core(m.es[k]) == Core(m0.es[k0]);
    CapOfEntry(mem0, m0, k0);
    CapOfEntry(mem, m, k);
    InvOf(mem, m);
    assert Core(m.es[k]).origin == m.es[k].origin && Core(m.es[k]).cap == m.es[k].cap;
    SourceIsRevocable(m, k);
    hide Represents, Inv, Doomed, Outside, IsSource, Core;
    forall x | x in mem && x != s ensures ObjectOf(mem[x].cap) != ObjectOf(mem0[s].cap) {
      if mem[x] != EMPTY_CTE {
        var j := OccupiedIndex(mem, m, x);
        assert !Derived(m.es, k, j);
        if SameObjectAt(m.es, k, j) { SourceIsAncestor(m, k, j); }
      }
    }
  }

  lemma SourceIsRevocable(m: Mdb, k: nat)
    requires Inv(m) && k < |m.es| && IsOriginal(m.es[k].origin)
    ensures m.es[k].revocable
  {
    assert EntryOk(m.es[k]);
  }

  /** Revoking an interrupt handler tears down nothing that could hold the handler itself. */
  lemma HandlerStays(mem: Memory, m: Mdb, k: nat)
    requires Represents(mem, m) && AllBacked(mem) && k < |m.es| && m.es[k].cap.IrqHandler?
    ensures m.es[k].id !in Doomed(m.es, m.es[k].id)
  {
    var es, id := m.es, m.es[k].id;
    var reach := set i | 0 <= i < |es| && (id in es[i].ancestors || es[i].cap.Notification?) :: es[i].id;
    RepresentedIds(mem, m);
    InvOf(mem, m);
    forall i, j | 0 <= i < |es| && 0 <= j < |es| && es[i].id in reach && Names(es[i].cap, es[j].slot)
      ensures es[j].id in reach
    {
      HandlerNames(mem, m, k, i, j);
    }
    assert Dooms(es, id, reach);
    NotItsOwnAncestor(mem, m, k);
    assert id !in reach;
  }

  lemma HandlerCopy(mem: Memory, m: Mdb, k: nat, i: nat)
    requires Represents(mem, m) && k < |m.es| && i < |m.es| && m.es[k].cap.IrqHandler? && Derived(m.es, k, i)
    ensures m.es[i].cap == m.es[k].cap
  {
    assert DerivedKind(m.es[k].cap, m.es[i].cap);
  }

  lemma HandlerNames(mem: Memory, m: Mdb, k: nat, i: nat, j: nat)
    requires Represents(mem, m) && AllBacked(mem) && k < |m.es| && i < |m.es| && j < |m.es| && m.es[k].cap.IrqHandler?
    requires Derived(m.es, k, i) || m.es[i].cap.Notification?
    requires Names(m.es[i].cap, m.es[j].slot)
    ensures m.es[j].cap.Notification?
  {
    hide Represents, AllBacked;
    if Derived(m.es, k, i) { HandlerCopy(mem, m, k, i); }
    OccupiedIsNonNull(mem, m, j);
    CapOfEntry(mem, m, j);
    BackedAt(mem, m.es[j].slot);
  }

  /**
   * cteRevoke. On success no surviving cap anywhere was derived from the cap in the slot, whatever CNodes
   * and threads had to be torn down on the way; and revoking an untyped empties every slot in its memory.
   * Preempted or not, no cap is touched that was neither derived from the revoked one nor lay in the slots of
   * a cap to tear down, and so on. If the slots of the derived caps hold only derived caps, exactly they are gone.
   * If the revoked cap is one that all others to its object come from, as an interrupt handler that was issued is, it
   * is the only one left, unless it was itself torn down.
   */
  method Revoke(c: Slots, s: nat, ghost k0: nat) returns (status: Status)
    requires c.Valid() && AllBacked(c.mem) && s in c.mem && (c.mem[s] != EMPTY_CTE ==> Occupies(c.mdb.es, k0, s))
    modifies c
    ensures c.Valid() && AllBacked(c.mem) && Pruned(old(c.mdb), c.mdb)
    ensures old(c.mem[s]) == EMPTY_CTE ==> status.Done? && c.mem == old(c.mem)
    ensures status.Done? ==> NoneDerived(c.mdb.es, s)
    ensures old(c.mem[s]) != EMPTY_CTE ==>
              var doomed := Doomed(old(c.mdb).es, old(c.mdb).es[k0].id);
              Outside(c.mdb.es, doomed) == Outside(old(c.mdb).es, doomed)
    ensures status.Done? && old(c.mem[s]) != EMPTY_CTE && old(c.mdb).es[k0].revocable
            && Closed(old(c.mdb).es, DerivedIds(old(c.mdb).es, old(c.mdb).es[k0].id)) ==>
              Cores(c.mdb.es) == NotDerived(old(c.mdb).es, old(c.mdb).es[k0].id)
    ensures status.Done? && old(c.mem[s]) != EMPTY_CTE && old(IsSource(c.mdb.es[k0]))
            && (old(c.mem[s].cap.IrqHandler?)
                || old(c.mdb.es[k0].id) !in Doomed(old(c.mdb.es), old(c.mdb.es[k0].id))) ==>
              IsLeftAlone(old(c.mem), c.mem, s)
    ensures Housed(old(c.mem)) ==> Housed(c.mem)
    ensures status.Done? && Housed(old(c.mem)) && s in c.mem && c.mem[s].cap.Untyped? ==>
              forall x | x in c.mem && ObjectBase(c.mem[s].cap) <= x < ObjectEnd(c.mem[s].cap) :: c.mem[x] == EMPTY_CTE
  {
    hide Represents, AllBacked, Pruned, NoneDerived, Cores, Outside, Doomed, DerivedIds, NotDerived, Closed;
    hide Housed, ObjectEnd, IsSource, IsLeftAlone;
    if c.mem[s] == EMPTY_CTE {
      SameIdsArePruned(c.mdb, c.mdb);
      EmptyHasNone(c.mem, c.mdb, s);
      return Done;
    }
    ghost var m0, id := c.mdb, c.mdb.es[k0].id;
    status := RevokeDerived(c, s, k0, Doomed(m0.es, id));
    if status.Done? {
      if m0.es[k0].revocable && Closed(m0.es, DerivedIds(m0.es, id)) {
        RevokedExactly(old(c.mem), m0, c.mem, c.mdb, s, k0);
      }
      if IsSource(m0.es[k0]) {
        CapOfEntry(old(c.mem), m0, k0);
        if m0.es[k0].cap.IrqHandler? { HandlerStays(old(c.mem), m0, k0); }
        if id !in Doomed(m0.es, id) { SourceIsLeftAlone(old(c.mem), m0, c.mem, c.mdb, s, k0); }
      }
      if Housed(c.mem) && s in c.mem && c.mem[s].cap.Untyped? { RevokedMemoryIsEmpty(c.mem, c.mdb, s); }
    }
  }

  /** Nothing is derived from the cap in s, if it is revocable. */
  ghost predicate NoneDerived(es: seq<Entry>, s: nat) {
    forall k: nat, j: nat | Occupies(es, k, s) && es[k].revocable && j < |es| :: !Derived(es, k, j)
  }

  lemma EmptyHasNone(mem: Memory, m: Mdb, s: nat)
    requires Represents(mem, m) && s in mem && mem[s] == EMPTY_CTE
    ensures NoneDerived(m.es, s)
  {
    hide Represents;
    forall k: nat ensures !Occupies(m.es, k, s) { EmptyHasNoEntry(mem, m, s, k); }
  }

  /** The loop of cteRevoke. */
  method RevokeDerived(c: Slots, s: nat, ghost k0: nat, ghost reach: set<nat>) returns (status: Status)
    requires c.Valid() && AllBacked(c.mem) && s in c.mem && Occupies(c.mdb.es, k0, s)
    requires reach == Doomed(c.mdb.es, c.mdb.es[k0].id)
    modifies c
    ensures c.Valid() && AllBacked(c.mem) && Pruned(old(c.mdb), c.mdb)
    ensures status.Done? ==> NoneDerived(c.mdb.es, s)
    ensures Outside(c.mdb.es, reach) == Outside(old(c.mdb).es, reach)
    ensures Housed(old(c.mem)) ==> Housed(c.mem)
  {
    hide Represents, NeighboursIn, AllBacked, Pruned, UnsettledSlots, MdbParentOf, NoneDerived, Touched, Closed;
    hide Outside, InPlace, OccupantIn, Housed, Doomed, Dooms, Ids, DistinctSlots;
    ghost var m0, id := c.mdb, c.mdb.es[k0].id;
    RepresentedIds(c.mem, m0);
    SameIdsArePruned(m0, m0);
    DoomedDooms(m0.es, id);
    DoomedParts(m0.es, id, reach);
    TouchedStart(m0, reach);
    while c.mem[s] != EMPTY_CTE
      invariant c.Valid() && AllBacked(c.mem) && s in c.mem && Pruned(m0, c.mdb) && Touched(m0, c.mdb, reach, Done)
      invariant Housed(old(c.mem)) ==> Housed(c.mem)
      decreases |c.mdb.es| + |UnsettledSlots(c.mem)|
    {
      ghost var k := OccupiedIndex(c.mem, c.mdb, s);
      var next := c.mem[s].next;
      NextInMemory(c.mem, s);
      TouchedParts(m0, c.mdb, reach, Done);
      if next == 0 || !MdbParentOf(c.mem[s], c.mem[next]) {
        RevokeEnds(c.mem, c.mdb, s, k);
        return Done;
      }
      AcceptedNext(c.mem, c.mdb, k);
      NextIsDoomed(c.mem, m0, c.mdb, s, k0, k, reach);
      ghost var d1 := c.mdb;
      OccupiedIsNonNull(c.mem, c.mdb, k + 1);
      status := Delete(c, next, k + 1, reach);
      PrunedTransitive(m0, d1, c.mdb);
      TouchedTwice(m0, d1, c.mdb, reach, status);
      TouchedParts(m0, c.mdb, reach, status);
      if status.Preempted? {
        return;
      }
      status := PreemptionPoint();
      if status.Preempted? {
        return;
      }
    }
    TouchedParts(m0, c.mdb, reach, Done);
    EmptyHasNone(c.mem, c.mdb, s);
    return Done;
  }

  lemma DoomedParts(es: seq<Entry>, id: nat, reach: set<nat>)
    requires Dooms(es, id, reach)
    ensures Closed(es, reach)
  {
  }

  lemma ParentIsNoZombie(mem: Memory, m: Mdb, k: nat)
    requires Represents(mem, m) && k + 1 < |m.es| && Derived(m.es, k, k + 1)
    ensures !m.es[k].cap.Zombie? && m.es[k].slot != 0
  {
    assert DerivedKind(m.es[k].cap, m.es[k + 1].cap);
  }

  lemma DerivedIsDoomed(m0: Mdb, m: Mdb, k0: nat, k: nat, reach: set<nat>)
    requires k0 < |m0.es| && k + 1 < |m.es| && m.es[k].slot == m0.es[k0].slot && Derived(m.es, k, k + 1)
    requires DistinctSlots(m0.es) && Dooms(m0.es, m0.es[k0].id, reach)
    requires Was(m0, m.es[k]) && ComesFrom(m0, m.es[k + 1])
    ensures m.es[k + 1].id in reach
  {
    hide Closed;
    var i :| 0 <= i < |m0.es| && m0.es[i].id == m.es[k].id && m0.es[i].slot == m.es[k].slot;
    assert i == k0;
  }

  /** What is to be deleted next was derived from the revoked cap: a cap that has taken its place would be a zombie. */
  lemma NextIsDoomed(mem: Memory, m0: Mdb, m: Mdb, s: nat, k0: nat, k: nat, reach: set<nat>)
    requires Represents(mem, m) && Ids(m0) && Occupies(m0.es, k0, s) && Occupies(m.es, k, s) && k + 1 < |m.es|
    requires DistinctSlots(m0.es) && Dooms(m0.es, m0.es[k0].id, reach)
    requires Pruned(m0, m) && Touched(m0, m, reach, Done) && Derived(m.es, k, k + 1)
    ensures OccupantIn(m.es, m.es[k + 1].slot, reach)
  {
    hide Represents, Ids, DistinctSlots, Dooms, Closed, Sparing, Outside, Was, ComesFrom;
    ParentIsNoZombie(mem, m, k);
    assert Was(m0, m.es[k]);
    assert ComesFrom(m0, m.es[k + 1]);
    DerivedIsDoomed(m0, m, k0, k, reach);
    forall j | 0 <= j < |m.es| && m.es[j].slot == m.es[k + 1].slot ensures m.es[j].id in reach {
      OneIndex(mem, m, j, k + 1);
    }
  }

  lemma RevokeEnds(mem: Memory, m: Mdb, s: nat, k: nat)
    requires Represents(mem, m) && Occupies(m.es, k, s) && NeighboursIn(mem, s) && NoChildren(mem, s)
    ensures NoneDerived(m.es, s)
  {
    hide Represents;
    if m.es[k].revocable { RejectedNext(mem, m, k); }
    forall i: nat | Occupies(m.es, i, s) ensures i == k { OneIndex(mem, m, i, k); }
  }

  /** If their slots hold only derived caps, what survives is exactly what was not derived. */
  lemma RevokedExactly(mem0: Memory, m0: Mdb, mem: Memory, m: Mdb, s: nat, k0: nat)
    requires Represents(mem0, m0) && Represents(mem, m) && Occupies(m0.es, k0, s) && m0.es[k0].revocable
    requires Closed(m0.es, DerivedIds(m0.es, m0.es[k0].id)) && Pruned(m0, m) && NoneDerived(m.es, s)
    requires var doomed := Doomed(m0.es, m0.es[k0].id); Outside(m.es, doomed) == Outside(m0.es, doomed)
    ensures Cores(m.es) == NotDerived(m0.es, m0.es[k0].id)
  {
    var id := m0.es[k0].id;
    RepresentedIds(mem0, m0);
    DoomedIsDerived(m0.es, id);
    NotItsOwnAncestor(mem0, m0, k0);
    hide Represents, Closed, Doomed, Ids, DerivedIds, Cores, NoneDerived, Pruned;
    var gone := DerivedIds(m0.es, id);
    forall x | x in Cores(m0.es) ensures x.id in gone <==> id in x.ancestors { SameNumberSameCap(m0, x, id); }
    forall x | x in Cores(m.es) ensures x.id !in gone { SurvivorIsNotGone(m0, m, s, k0, x); }
    assert Cores(m.es) == Outside(m.es, gone);
    assert Outside(m0.es, gone) == NotDerived(m0.es, id);
  }

  lemma SurvivorIsNotGone(m0: Mdb, m: Mdb, s: nat, k0: nat, x: Entry)
    requires Ids(m0) && Occupies(m0.es, k0, s) && m0.es[k0].revocable && Pruned(m0, m) && NoneDerived(m.es, s)
    requires var gone := DerivedIds(m0.es, m0.es[k0].id);
             m0.es[k0].id !in gone && Outside(m.es, gone) == Outside(m0.es, gone)
    requires x in Cores(m.es)
    ensures x.id !in DerivedIds(m0.es, m0.es[k0].id)
  {
    var id, gone := m0.es[k0].id, DerivedIds(m0.es, m0.es[k0].id);
    StillThere(m0, m, s, k0, gone);
    var k: nat :| Occupies(m.es, k, s) && Core(m.es[k]) == Core(m0.es[k0]);
    var j: nat :| j < |m.es| && x == Core(m.es[j]);
    assert Core(m.es[k]).id == id && !Derived(m.es, k, j);
    assert ComesFrom(m0, m.es[j]);
    var i :| 0 <= i < |m0.es| && SameOrigin(m0.es[i], m.es[j]);
    assert Core(m0.es[i]) in Cores(m0.es);
    SameNumberSameCap(m0, Core(m0.es[i]), id);
  }

  lemma NotItsOwnAncestor(mem: Memory, m: Mdb, k: nat)
    requires Represents(mem, m) && k < |m.es|
    ensures m.es[k].id !in DerivedIds(m.es, m.es[k].id)
  {
    forall i | 0 <= i < |m.es| && m.es[k].id in m.es[i].ancestors ensures m.es[i].id != m.es[k].id {
      assert Derived(m.es, k, i);
    }
  }

  lemma StillThere(m0: Mdb, m: Mdb, s: nat, k0: nat, gone: set<nat>)
    requires Occupies(m0.es, k0, s) && m0.es[k0].id !in gone && Outside(m.es, gone) == Outside(m0.es, gone)
    ensures exists k: nat :: Occupies(m.es, k, s) && Core(m.es[k]) == Core(m0.es[k0])
  {
    assert Core(m0.es[k0]) in Outside(m0.es, gone);
    assert Core(m0.es[k0]) in Cores(m.es);
    var k: nat :| k < |m.es| && Core(m.es[k]) == Core(m0.es[k0]);
    assert Core(m.es[k]).slot == m.es[k].slot;
    assert Occupies(m.es, k, s);
  }

  lemma SameNumberSameCap(m: Mdb, x: Entry, id: nat)
    requires Ids(m) && x in Cores(m.es)
    ensures x.id in DerivedIds(m.es, id) <==> id in x.ancestors
  {
    var i :| 0 <= i < |m.es| && x == Core(m.es[i]);
    assert x.id == m.es[i].id;
  }

  lemma RevokedMemoryIsEmpty(mem: Memory, m: Mdb, s: nat)
    requires Represents(mem, m) && AllBacked(mem) && Housed(mem) && s in mem && mem[s].cap.Untyped?
             && NoneDerived(m.es, s)
    ensures forall x | x in mem && ObjectBase(mem[s].cap) <= x < ObjectEnd(mem[s].cap) :: mem[x] == EMPTY_CTE
  {
    var k := OccupiedIndex(mem, m, s);
    assert EntryOk(m.es[k]);
    hide Represents, AllBacked, Housed;
    forall x | x in mem && ObjectBase(mem[s].cap) <= x < ObjectEnd(mem[s].cap) ensures mem[x] == EMPTY_CTE {
      ChildlessMemoryIsEmpty(mem, m, s, k, x);
    }
  }

}
