/**
 * Deleting caps: finaliseSlot, reduceZombie, cteDelete and cteRevoke, on CNode graphs of any shape.
 */
module CapDeletion {
  import opened Words
  import opened Caps
  import opened MdbList
  import opened MdbSteps
  import opened MdbOps
  import opened CSpace
  import opened CapObjects
  import opened CapSlots
  import opened CapReach

  // ------------------------------------------------------------------- finalising one cap

  /** finaliseCap: what remains of the cap. */
  function Remainder(c: Cap, final: bool): Cap {
    match c
    case CNode(p, r, _, _) => if final then Zombie(p, ZombieCNode(r), Capacity(c)) else Null
    case Thread(_) => if final then Zombie(ObjectBase(c), ZombieTcb, Capacity(c)) else Null
    case Zombie(_, _, _) => c
    case _ => Null
  }

  predicate CapRemovable(c: Cap, s: nat) {
    c.Null? || (c.Zombie? && (c.number == 0 || (c.number == 1 && c.ptr == s)))
  }

  predicate CyclicZombie(c: Cap, s: nat) {
    c.Zombie? && c.ptr == s
  }

  /** A zombie's object overlaps no other object. */
  lemma ZombieIsAlone(mem: Memory, m: Mdb, a: nat, b: nat)
    requires Represents(mem, m) && a in mem && b in mem && a != b && mem[a].cap.Zombie? && HasSlots(mem[b].cap)
    ensures !Overlap(mem[a].cap, mem[b].cap)
  {
    var i := OccupiedIndex(mem, m, a);
    var j := OccupiedIndex(mem, m, b);
    InvOf(mem, m);
    hide Represents, Inv, Overlap;
    ZombieEntryIsAlone(m, i, j);
  }

  lemma ZombieEntryIsAlone(m: Mdb, i: nat, j: nat)
    requires Inv(m) && i < |m.es| && j < |m.es| && i != j && m.es[i].cap.Zombie? && !m.es[j].cap.Untyped?
    ensures !Overlap(m.es[i].cap, m.es[j].cap)
  {
    assert !SameObjectAt(m.es, i, j);
  }

  // ---------------------------------------------------------------------- the variant

  predicate Unsettled(mem: Memory, s: nat) {
    s in mem && HasSlots(mem[s].cap) && !CyclicZombie(mem[s].cap, s)
  }

  /** The slots holding a CNode, thread or zombie cap that is not yet a self-referential zombie. */
  function UnsettledSlots(mem: Memory): set<nat> {
    set s | s in mem && Unsettled(mem, s)
  }

  /** The slot has the cap it had; one of the interrupt node may have been emptied. */
  predicate Kept(m0: Memory, mem: Memory, x: nat)
    requires x in m0 && x in mem
  {
    mem[x].cap == m0[x].cap || (x >= WORD && mem[x].cap.Null?)
  }

  /** Every slot but e kept its cap or now holds its own self-referential zombie, and those stay. */
  predicate Settles(m0: Memory, mem: Memory, e: nat) {
    && mem.Keys == m0.Keys
    && (forall x | x in mem && x != e :: Kept(m0, mem, x) || CyclicZombie(mem[x].cap, x))
    && (forall x | x in mem && x != e && CyclicZombie(m0[x].cap, x) :: mem[x].cap == m0[x].cap)
  }

  predicate Untouched(m0: Memory, mem: Memory, e: nat) {
    mem.Keys == m0.Keys && forall x | x in mem && x != e :: Kept(m0, mem, x)
  }

  /** One unexposed round: the zombie in e moves into its own first slot, whose cap moves to e. */
  lemma RoundSettles(m0: Memory, mem: Memory, e: nat, p: nat)
    requires e in m0 && p in m0 && e != p && mem.Keys == m0.Keys
    requires HasSlots(m0[e].cap) && !CyclicZombie(m0[e].cap, e) && !CyclicZombie(m0[p].cap, p)
    requires CyclicZombie(mem[p].cap, p) && mem[e].cap == m0[p].cap
    requires forall x | x in mem && x != e && x != p :: mem[x].cap == m0[x].cap
    ensures Settles(m0, mem, e) && |UnsettledSlots(mem)| < |UnsettledSlots(m0)|
  {
    var u0, u := UnsettledSlots(m0), UnsettledSlots(mem);
    assert e in u0 && p !in u;
    if p in u0 {
      assert u <= u0 - {p};
      SubsetSmaller(u, u0 - {p});
    } else {
      assert u <= u0 - {e};
      SubsetSmaller(u, u0 - {e});
    }
  }

  lemma SubsetSmaller(a: set<nat>, b: set<nat>)
    requires a <= b
    ensures |a| <= |b|
  {
    if a != {} {
      var x :| x in a;
      SubsetSmaller(a - {x}, b - {x});
    }
  }

  lemma SettlesTransitive(a: Memory, b: Memory, c: Memory, e: nat)
    requires Settles(a, b, e) && Settles(b, c, e)
    ensures Settles(a, c, e)
  {
  }

  /** Only the cap in e changed, and it still has slots if it has any. */
  lemma ChangeAtEndSettles(m0: Memory, mem: Memory, e: nat)
    requires Untouched(m0, mem, e) && e in mem && (Unsettled(mem, e) ==> Unsettled(m0, e))
    ensures Settles(m0, mem, e) && |UnsettledSlots(mem)| <= |UnsettledSlots(m0)|
  {
    SubsetSmaller(UnsettledSlots(mem), UnsettledSlots(m0));
  }

  // -------------------------------------------------------------------- finalising

  /** What finaliseSlot hands to emptySlot: nothing left, or a cap that may be removed as it is. */
  predicate Finalised(mem: Memory, e: nat, cleanup: Cap) {
    && e in mem
    && (mem[e] == EMPTY_CTE ||
        (NeighboursIn(mem, e) && CapRemovable(Remainder(mem[e].cap, FinalCapability(mem, e)), e)
         && cleanup == CleanupInfo(mem[e].cap, FinalCapability(mem, e)) && NodeIsFree(mem, e)))
  }

  lemma EmptyIsFinalised(mem: Memory, e: nat)
    requires e in mem && mem[e] == EMPTY_CTE
    ensures Finalised(mem, e, Null)
  {
  }

  /** Before the last cap to an interrupt goes, the interrupt's slot in the node has been emptied. */
  predicate NodeIsFree(mem: Memory, e: nat)
    requires NeighboursIn(mem, e)
  {
    mem[e].cap.IrqHandler? && FinalCapability(mem, e) ==>
      var n := NodeSlot(mem[e].cap.irq); n in mem ==> mem[n].cap.Null?
  }

  /** The same history: serial number, ancestors, lineage and revocability. */
  predicate SameOrigin(a: Entry, b: Entry) {
    a.id == b.id && a.ancestors == b.ancestors && a.lineage == b.lineage && a.revocable == b.revocable
  }

  predicate SameIds(a: Mdb, b: Mdb) {
    |a.es| == |b.es| && forall i | 0 <= i < |a.es| :: SameOrigin(a.es[i], b.es[i])
  }

  predicate ComesFrom(a: Mdb, e: Entry) {
    exists i :: 0 <= i < |a.es| && SameOrigin(a.es[i], e)
  }

  /** No cap is new: what is left in the lists was there before. */
  predicate Pruned(a: Mdb, b: Mdb) {
    |b.es| <= |a.es| && forall j | 0 <= j < |b.es| :: ComesFrom(a, b.es[j])
  }

  lemma PrunedTransitive(a: Mdb, b: Mdb, c: Mdb)
    requires Pruned(a, b) && Pruned(b, c)
    ensures Pruned(a, c)
  {
    forall j | 0 <= j < |c.es| ensures ComesFrom(a, c.es[j]) {
      assert ComesFrom(b, c.es[j]);
      var i :| 0 <= i < |b.es| && SameOrigin(b.es[i], c.es[j]);
      assert ComesFrom(a, b.es[i]);
      var h :| 0 <= h < |a.es| && SameOrigin(a.es[h], b.es[i]);
      assert SameOrigin(a.es[h], c.es[j]);
    }
  }

  lemma SameIdsArePruned(a: Mdb, b: Mdb)
    requires SameIds(a, b)
    ensures Pruned(a, b)
  {
    forall j | 0 <= j < |b.es| ensures ComesFrom(a, b.es[j]) { assert SameOrigin(a.es[j], b.es[j]); }
  }

  lemma RemovalPrunes(m: Mdb, k: nat)
    requires k < |m.es|
    ensures Pruned(m, Removed(m, k)) && |Removed(m, k).es| == |m.es| - 1
  {
    var r := Removed(m, k);
    forall j: nat | j < |r.es| ensures ComesFrom(m, r.es[j]) { assert SameOrigin(m.es[Past(k, j)], r.es[j]); }
  }

  /** The memory is not more unsettled than before, and less so unless only e changed. */
  predicate Progress(m0: Memory, mem: Memory, e: nat) {
    && Settles(m0, mem, e)
    && |UnsettledSlots(mem)| <= |UnsettledSlots(m0)|
    && (|UnsettledSlots(mem)| < |UnsettledSlots(m0)| || Untouched(m0, mem, e))
  }

  lemma ProgressStep(a: Memory, b: Memory, c: Memory, e: nat)
    requires Progress(a, b, e) && Progress(b, c, e)
    ensures Progress(a, c, e)
  {
    SettlesTransitive(a, b, c, e);
  }

  lemma ZombieFits(mem: Memory, c: Cap, final: bool, e: nat)
    requires Backed(mem, c) && !CapRemovable(Remainder(c, final), e)
    ensures var z := Remainder(c, final); Covers(c, z) && Covers(z, c)
    ensures var z := Remainder(c, final);
            && IsZombieOf(c, z) && Backed(mem, z) && z.number > 0 && z.ptr in mem && z.ptr == ObjectBase(z)
            && HasSlots(c) && Capacity(z) > 0 && (c.Zombie? || final)
  {
    var z := Remainder(c, final);
    BackedAlike(mem, c, z);
    assert SlotAt(z, 0) == z.ptr;
  }

  lemma FinalZombie(mem: Memory, e: nat)
    requires NeighboursIn(mem, e) && mem[e].cap.Zombie?
    ensures FinalCapability(mem, e)
  {
  }

  lemma ZombieKeepsHoused(mem: Memory, s: nat, z: Cap)
    requires Housed(mem) && s in mem && !mem[s].cap.Null? && Covers(z, mem[s].cap)
    ensures Housed(SetCap(mem, s, z))
  {
    hide Named, Names;
    AddKeepsHoused(mem, SetCap(mem, s, z), s);
  }

  /** finaliseSlot leaves emptySlot a cap whose slots are accounted for by another cap, or hold nothing else. */
  lemma RemovableIsDispensable(mem: Memory, m: Mdb, s: nat)
    requires Represents(mem, m) && s in mem && mem[s] != EMPTY_CTE && NeighboursIn(mem, s)
    requires CapRemovable(Remainder(mem[s].cap, FinalCapability(mem, s)), s) && NodeIsFree(mem, s)
    ensures Dispensable(mem, s)
  {
    hide Represents, FinalCapability;
    var c := mem[s].cap;
    if (c.CNode? || c.Thread? || c.IrqHandler?) && !FinalCapability(mem, s) {
      FinalCapabilityIsGlobal(mem, m, s);
      var t :| t in mem && t != s && SameObjectAs(c, mem[t].cap);
      assert Covers(mem[t].cap, c);
      hide Names, Covers;
      forall x | Names(c, x) ensures NamedElsewhere(mem, s, x) { CoversNames(mem[t].cap, c, x); }
    } else if c.IrqHandler? {
      assert forall i: nat | i < Counted(c) :: SlotAt(c, i) == NodeSlot(c.irq);
    } else {
      assert forall i: nat | i < Counted(c) :: SlotAt(c, i) == s;
    }
  }

  /** A cap that stands for no slot may go without leaving anything behind. */
  lemma SlotlessIsDispensable(mem: Memory, s: nat)
    requires s in mem && Counted(mem[s].cap) == 0
    ensures Dispensable(mem, s)
  {
  }

  lemma SwapKeepsIds(m: Mdb, cap1: Cap, s1: nat, cap2: Cap, s2: nat)
    ensures SameIds(m, m.(es := SwapEntries(m.es, cap1, s1, cap2, s2)))
  {
  }

  lemma ZombieKeepsIds(m: Mdb, k: nat, z: Cap)
    requires k < |m.es|
    ensures SameIds(m, m.(es := WithCap(m.es, k, z)))
  {
  }

  // ------------------------------------------------------------------ what an unexposed deletion does at e

  /** Every slot but e that no cap of the set stands for has the cap it had. */
  predicate Leaves(m0: Memory, d0: Mdb, mem: Memory, reach: set<nat>, e: nat) {
    forall x | x in mem && x in m0 && x != e && Spares(d0.es, reach, x) :: mem[x].cap == m0[x].cap
  }

  ghost predicate Advances(m0: Memory, d0: Mdb, mem: Memory, d: Mdb, reach: set<nat>, e: nat) {
    && Progress(m0, mem, e) && Pruned(d0, d) && Reaches(d0, d, reach, e) && Leaves(m0, d0, mem, reach, e)
    && (Housed(m0) ==> Housed(mem))
  }

  lemma AdvancesNothing(mem: Memory, m: Mdb, reach: set<nat>, e: nat)
    requires e in mem && Closed(m.es, reach)
    ensures Advances(mem, m, mem, m, reach, e)
  {
    SameIdsArePruned(m, m);
    ReachesNothing(m, reach, e);
  }

  lemma AdvancesTwice(m0: Memory, d0: Mdb, m1: Memory, d1: Mdb, mem: Memory, d: Mdb, reach: set<nat>, e: nat)
    requires Advances(m0, d0, m1, d1, reach, e) && Advances(m1, d1, mem, d, reach, e)
    ensures Advances(m0, d0, mem, d, reach, e) && |UnsettledSlots(mem)| <= |UnsettledSlots(m1)|
  {
    ProgressStep(m0, m1, mem, e);
    PrunedTransitive(d0, d1, d);
    ReachesTransitive(d0, d1, d, reach, e);
    ReachesFacts(d0, d1, reach, e);
    hide Reaches, Spares, Pruned, Housed;
    forall x | x in mem && x in m0 && x != e && Spares(d0.es, reach, x) ensures mem[x].cap == m0[x].cap {
      assert Spares(d1.es, reach, x);
    }
  }

  lemma AdvancesFacts(m0: Memory, d0: Mdb, mem: Memory, d: Mdb, reach: set<nat>, e: nat)
    requires Advances(m0, d0, mem, d, reach, e)
    ensures Closed(d.es, reach) && mem.Keys == m0.Keys && |d.es| <= |d0.es|
    ensures |UnsettledSlots(mem)| <= |UnsettledSlots(m0)| && (Housed(m0) ==> Housed(mem))
    ensures OccupantIn(d0.es, e, reach) ==> OccupantIn(d.es, e, reach)
  {
    ReachesFacts(d0, d, reach, e);
    if OccupantIn(d0.es, e, reach) { OccupantStays(d0.es, d.es, reach, e); }
  }

  /** Only the cap in e was changed, to one that has slots only if the old one did. */
  lemma ChangeAdvances(m0: Memory, d0: Mdb, mem: Memory, d: Mdb, reach: set<nat>, e: nat)
    requires mem.Keys == m0.Keys && e in mem && (Unsettled(mem, e) ==> Unsettled(m0, e))
    requires forall x | x in mem && x != e :: mem[x].cap == m0[x].cap
    requires Pruned(d0, d) && Reaches(d0, d, reach, e) && (Housed(m0) ==> Housed(mem))
    ensures Advances(m0, d0, mem, d, reach, e)
  {
    ChangeAtEndSettles(m0, mem, e);
  }

  /** A slot of the interrupt node that a cap of the set stands for was emptied. */
  lemma NodeAdvances(m0: Memory, d0: Mdb, mem: Memory, d: Mdb, reach: set<nat>, e: nat, n: nat)
    requires AllBacked(m0) && mem.Keys == m0.Keys && e in mem && n in mem && n >= WORD && n != e && mem[n].cap.Null?
    requires forall x | x in mem && x != n :: mem[x].cap == m0[x].cap
    requires Pruned(d0, d) && Reaches(d0, d, reach, e) && (Housed(m0) ==> Housed(mem)) && !Spares(d0.es, reach, n)
    ensures Advances(m0, d0, mem, d, reach, e)
  {
    BackedAt(m0, n);
    hide AllBacked, Spares, Pruned, Reaches, Housed;
    assert Untouched(m0, mem, e);
    ChangeAtEndSettles(m0, mem, e);
  }

  /** The zombie in e is not the one already resting in its own first slot. */
  lemma FirstSlotIsNotCyclic(mem: Memory, m: Mdb, e: nat)
    requires Represents(mem, m) && e in mem && mem[e].cap.Zombie? && Capacity(mem[e].cap) > 0
    requires mem[e].cap.ptr in mem && mem[e].cap.ptr != e
    ensures !CyclicZombie(mem[mem[e].cap.ptr].cap, mem[e].cap.ptr)
  {
    var z := mem[e].cap;
    if CyclicZombie(mem[z.ptr].cap, z.ptr) {
      ZombieIsAlone(mem, m, e, z.ptr);
      hide Represents;
      SharedSlotOverlaps(z, mem[z.ptr].cap, 0);
    }
  }

  /** The zombie in e accounts for its own first slot, so the cap in there may be reached with it. */
  lemma FirstSlotIsReached(mem: Memory, m: Mdb, e: nat, reach: set<nat>)
    requires Represents(mem, m) && e in mem && mem[e].cap.Zombie? && mem[e].cap.number > 0
    requires Closed(m.es, reach) && OccupantIn(m.es, e, reach)
    ensures var z, p := mem[e].cap, mem[e].cap.ptr;
            && Named(mem, p) && !Spares(m.es, reach, p)
            && (p in mem ==> Reaches(m, m.(es := SwapEntries(m.es, mem[p].cap, p, z, e)), reach, e))
  {
    var z, p := mem[e].cap, mem[e].cap.ptr;
    assert p == SlotAt(z, 0);
    assert Names(z, p);
    var k := OccupiedIndex(mem, m, e);
    hide Represents, Names, SwapEntries, Reaches;
    OccupantInside(m.es, k, p, reach);
    if p in mem {
      forall i: nat | i < |m.es| ensures m.es[i].slot in mem && m.es[i].cap == mem[m.es[i].slot].cap {
        CapOfEntry(mem, m, i);
      }
      hide Closed, OccupantIn;
      SwapReaches(m, mem[p].cap, p, z, e, reach);
    }
  }

  lemma ZombieIsOrdinary(mem: Memory, e: nat)
    requires AllBacked(mem) && e in mem && HasSlots(mem[e].cap)
    ensures e < WORD
  {
    BackedAt(mem, e);
  }

  lemma RoundAdvances(m0: Memory, d0: Mdb, mem: Memory, d: Mdb, reach: set<nat>, e: nat, p: nat)
    requires Settles(m0, mem, e) && |UnsettledSlots(mem)| < |UnsettledSlots(m0)|
    requires forall x | x in mem && x in m0 && x != e && x != p :: mem[x].cap == m0[x].cap
    requires Pruned(d0, d) && Reaches(d0, d, reach, e) && (Housed(m0) ==> Housed(mem)) && !Spares(d0.es, reach, p)
    ensures Advances(m0, d0, mem, d, reach, e)
  {
  }

  /** reduceZombie, not exposed: the zombie trades places with the cap in its own first slot. */
  method ReduceUnexposed(c: Slots, e: nat, ghost reach: set<nat>)
    requires c.Valid() && AllBacked(c.mem) && e in c.mem && c.mem[e].cap.Zombie? && c.mem[e].cap.number > 0
    requires c.mem[e].cap.ptr in c.mem && c.mem[e].cap.ptr != e && Capacity(c.mem[e].cap) > 0
    requires Closed(c.mdb.es, reach) && OccupantIn(c.mdb.es, e, reach)
    modifies c
    ensures c.Valid() && AllBacked(c.mem) && Advances(old(c.mem), old(c.mdb), c.mem, c.mdb, reach, e)
    ensures |UnsettledSlots(c.mem)| < |UnsettledSlots(old(c.mem))|
  {
    hide Represents, AllBacked, Backed, SwapEntries, UnsettledSlots, Capacity, Named, Housed;
    hide Reaches, Closed, OccupantIn, Spares, SameIds, Pruned, Settles, Advances;
    ghost var m0, d0 := c.mem, c.mdb;
    var z := c.mem[e].cap;
    var p := z.ptr;
    FirstSlotIsNotCyclic(m0, d0, e);
    FirstSlotIsReached(m0, d0, e, reach);
    ZombieIsOrdinary(m0, e);
    SwapKeepsIds(d0, c.mem[p].cap, p, z, e);
    if Housed(m0) { HousedAt(m0, e); }
    c.Swap(c.mem[p].cap, p, z, e);
    RoundSettles(m0, c.mem, e, p);
    SameIdsArePruned(d0, c.mdb);
    RoundAdvances(m0, d0, c.mem, c.mdb, reach, e, p);
  }

  lemma HousedAt(mem: Memory, x: nat)
    requires Housed(mem) && x in mem && !mem[x].cap.Null?
    ensures Named(mem, x)
  {
  }

  lemma ZombieKeepsBacked(mem: Memory, s: nat, z: Cap)
    requires AllBacked(mem) && s in mem && HasSlots(mem[s].cap) && z.Zombie? && Backed(mem, z)
    ensures AllBacked(SetCap(mem, s, z))
  {
    BackedAt(mem, s);
    forall x | x in mem ensures Backed(mem, SetCap(mem, s, z)[x].cap) { BackedAt(mem, x); }
    BackedAfter(mem, SetCap(mem, s, z));
  }

  /** slot->cap = fc_ret.remainder: a cap that cannot be removed yet becomes a zombie. */
  method LeaveRemainder(c: Slots, s: nat, ghost k: nat, ghost reach: set<nat>) returns (z: Cap)
    requires c.Valid() && AllBacked(c.mem) && Occupies(c.mdb.es, k, s) && NeighboursIn(c.mem, s)
    requires !CapRemovable(Remainder(c.mem[s].cap, FinalCapability(c.mem, s)), s)
    requires Closed(c.mdb.es, reach) && OccupantIn(c.mdb.es, s, reach)
    modifies c
    ensures c.Valid() && AllBacked(c.mem) && Advances(old(c.mem), old(c.mdb), c.mem, c.mdb, reach, s)
    ensures z == Remainder(old(c.mem[s].cap), old(FinalCapability(c.mem, s))) && c.mem == SetCap(old(c.mem), s, z)
    ensures HasSlots(old(c.mem[s].cap)) && z.Zombie? && z.number > 0 && Capacity(z) > 0 && z.ptr in c.mem
    ensures IsZombieOf(old(c.mem[s].cap), z) && Reaches(old(c.mdb), c.mdb, reach, 0)
  {
    hide Represents, FinalCapability, AllBacked, Backed, IsZombieOf, WithCap, SameIds, CapRemovable, Capacity;
    hide Reaches, Closed, Covers, Housed, Advances, Pruned, UnsettledSlots;
    ghost var m1, d1 := c.mem, c.mdb;
    z := Remainder(c.mem[s].cap, FinalCapability(c.mem, s));
    BackedAt(m1, s);
    ZombieFits(m1, m1[s].cap, FinalCapability(m1, s), s);
    if m1[s].cap.Zombie? { FinalZombie(m1, s); }
    CapOfEntry(m1, d1, k);
    ZombieKeepsBacked(m1, s, z);
    c.BecomeZombie(s, z, k);
    ZombieKeepsIds(d1, k, z);
    SameIdsArePruned(d1, c.mdb);
    ZombieReaches(d1, k, z, reach, s);
    ZombieReaches(d1, k, z, reach, 0);
    if Housed(m1) { ZombieKeepsHoused(m1, s, z); }
    ChangeAdvances(m1, d1, c.mem, c.mdb, reach, s);
  }

  // ------------------------------------------------------------------ the interrupt node

  /** cteDeleteOne, for a cap that stands for no slot. */
  method DeleteOne(c: Slots, n: nat, ghost reach: set<nat>, ghost e: nat)
    requires c.Valid() && AllBacked(c.mem) && n in c.mem && Counted(c.mem[n].cap) == 0 && !HasSlots(c.mem[n].cap)
    requires Closed(c.mdb.es, reach) && OccupantIn(c.mdb.es, n, reach)
    modifies c
    ensures c.Valid() && AllBacked(c.mem) && c.mem.Keys == old(c.mem.Keys) && c.mem[n] == EMPTY_CTE
    ensures forall x | x in c.mem && x != n :: c.mem[x].cap == old(c.mem[x].cap)
    ensures old(c.mem[n]) == EMPTY_CTE ==> c.mem == old(c.mem) && c.mdb == old(c.mdb)
    ensures old(c.mem[n]) != EMPTY_CTE ==> RemovedFrom(old(c.mdb), c.mdb, n)
    ensures Pruned(old(c.mdb), c.mdb) && Reaches(old(c.mdb), c.mdb, reach, e) && Reaches(old(c.mdb), c.mdb, reach, 0)
    ensures Housed(old(c.mem)) ==> Housed(c.mem)
  {
    hide Represents, FinalCapability, NeighboursIn, AllBacked, Backed, Pruned, Removed, Reaches, Closed, Dispensable;
    hide Ids, Housed, Counted;
    ghost var d0 := c.mdb;
    if c.mem[n].cap.Null? {
      NullIsEmpty(c.mem, d0, n);
      SameIdsArePruned(d0, d0);
      ReachesNothing(d0, reach, e);
      ReachesNothing(d0, reach, 0);
      return;
    }
    ghost var k := OccupiedIndex(c.mem, d0, n);
    SlotlessIsDispensable(c.mem, n);
    SlotlessIsNoHandler(c.mem[n].cap);
    RepresentedIds(c.mem, d0);
    c.Empty(n, Null, k);
    RemovalPrunes(d0, k);
    RemovalReaches(d0, k, reach, e);
    RemovalReaches(d0, k, reach, 0);
  }

  lemma SlotlessIsNoHandler(c: Cap)
    requires Counted(c) == 0
    ensures !c.IrqHandler?
  {
  }

  /** The cap in slot n, and nothing else, left the lists. */
  ghost predicate RemovedFrom(a: Mdb, b: Mdb, n: nat) {
    exists k: nat :: Occupies(a.es, k, n) && b == Removed(a, k)
  }

  /** The cap in s is the last one to its interrupt, and the interrupt's slot in the node holds a cap. */
  predicate TakesNode(mem: Memory, s: nat) {
    && NeighboursIn(mem, s) && mem[s].cap.IrqHandler? && FinalCapability(mem, s)
    && var n := NodeSlot(mem[s].cap.irq); n in mem && mem[n] != EMPTY_CTE
  }

  /** A cap that is the last one to its object stays so when another cap goes. */
  lemma StillFinal(m0: Memory, d0: Mdb, mem: Memory, d: Mdb, e: nat, n: nat)
    requires Represents(m0, d0) && Represents(mem, d) && mem.Keys == m0.Keys && e in m0 && NeighboursIn(m0, e) && e != n
    requires !m0[e].cap.SchedControl? && !m0[e].cap.Null? && FinalCapability(m0, e) && n in mem && mem[n].cap.Null?
    requires forall x | x in mem && x != n :: mem[x].cap == m0[x].cap
    ensures NeighboursIn(mem, e) && FinalCapability(mem, e)
  {
    hide Represents, FinalCapability;
    FinalCapabilityIsGlobal(m0, d0, e);
    FinalCapabilityIsGlobal(mem, d, e);
    assert !SameObjectAs(mem[e].cap, Null);
    hide SameObjectAs;
  }

  lemma NodeIsReached(mem: Memory, m: Mdb, e: nat, reach: set<nat>)
    requires Represents(mem, m) && AllBacked(mem) && e in mem && mem[e].cap.IrqHandler?
    requires Closed(m.es, reach) && OccupantIn(m.es, e, reach)
    ensures var n := NodeSlot(mem[e].cap.irq);
            && n in mem && n != e && Counted(mem[n].cap) == 0 && !HasSlots(mem[n].cap)
            && OccupantIn(m.es, n, reach) && !Spares(m.es, reach, n)
  {
    var c, n := mem[e].cap, NodeSlot(mem[e].cap.irq);
    BackedAt(mem, e);
    assert SlotAt(c, 0) == n;
    assert Names(c, n);
    BackedAt(mem, n);
    var k := OccupiedIndex(mem, m, e);
    hide Represents, AllBacked, Names;
    OccupantInside(m.es, k, n, reach);
  }

  /** deletingIRQHandler, for the last cap to an interrupt, which is in e. */
  method ClearNode(c: Slots, e: nat, ghost reach: set<nat>)
    requires c.Valid() && AllBacked(c.mem) && NeighboursIn(c.mem, e) && c.mem[e].cap.IrqHandler?
             && FinalCapability(c.mem, e)
    requires Closed(c.mdb.es, reach) && OccupantIn(c.mdb.es, e, reach)
    modifies c
    ensures c.Valid() && AllBacked(c.mem) && Advances(old(c.mem), old(c.mdb), c.mem, c.mdb, reach, e)
    ensures e in c.mem && c.mem[e].cap == old(c.mem[e].cap) && NeighboursIn(c.mem, e) && FinalCapability(c.mem, e)
    ensures NodeIsFree(c.mem, e) && Reaches(old(c.mdb), c.mdb, reach, 0)
    ensures if old(TakesNode(c.mem, e)) then RemovedFrom(old(c.mdb), c.mdb, old(NodeSlot(c.mem[e].cap.irq)))
            else c.mem == old(c.mem) && c.mdb == old(c.mdb)
  {
    NextInMemory(c.mem, e);
    ghost var m0, d0 := c.mem, c.mdb;
    hide Represents, FinalCapability, NeighboursIn, AllBacked, Pruned, Reaches, Closed, OccupantIn, Spares, Advances;
    hide RemovedFrom, Housed, Counted;
    var n := NodeSlot(c.mem[e].cap.irq);
    NodeIsReached(m0, d0, e, reach);
    DeleteOne(c, n, reach, e);
    NodeAdvances(m0, d0, c.mem, c.mdb, reach, e, n);
    StillFinal(m0, d0, c.mem, c.mdb, e, n);
  }

  /** invokeIRQHandler_ClearIRQHandler */
  method ClearIrqHandler(c: Slots, h: nat)
    requires c.Valid() && AllBacked(c.mem) && h in c.mem && c.mem[h].cap.IrqHandler?
    modifies c
    ensures c.Valid() && AllBacked(c.mem) && (Housed(old(c.mem)) ==> Housed(c.mem)) && c.mem.Keys == old(c.mem.Keys)
    ensures var n := NodeSlot(old(c.mem[h].cap).irq);
            && n in c.mem && c.mem[n] == EMPTY_CTE
            && (forall x | x in c.mem && x != n :: c.mem[x].cap == old(c.mem[x].cap))
            && if old(n in c.mem && c.mem[n] != EMPTY_CTE)
               then RemovedFrom(old(c.mdb), c.mdb, n) else c.mdb == old(c.mdb)
  {
    hide Represents, AllBacked, Backed, RemovedFrom, Reaches, Pruned, Housed, Closed, OccupantIn, Spares, Counted;
    EverythingIsClosed(c.mdb.es, h);
    NodeIsReached(c.mem, c.mdb, h, Numbers(c.mdb.es));
    DeleteOne(c, NodeSlot(c.mem[h].cap.irq), Numbers(c.mdb.es), h);
  }

  lemma EverythingIsClosed(es: seq<Entry>, s: nat)
    ensures Closed(es, Numbers(es)) && OccupantIn(es, s, Numbers(es))
  {
  }

  /** invokeIRQHandler_SetIRQHandler: the notification cap in src is copied to the slot of the interrupt of h. */
  method SetIrqHandler(c: Slots, h: nat, src: nat)
    requires c.Valid() && AllBacked(c.mem) && h in c.mem && c.mem[h].cap.IrqHandler?
    requires src in c.mem && src < WORD && c.mem[src].cap.Notification?
    modifies c
    ensures c.Valid() && AllBacked(c.mem) && (Housed(old(c.mem)) ==> Housed(c.mem)) && c.mem.Keys == old(c.mem.Keys)
    ensures var n := NodeSlot(old(c.mem[h].cap).irq);
            && n in c.mem && c.mem[n].cap == old(c.mem[src].cap)
            && (forall x | x in c.mem && x != n :: c.mem[x].cap == old(c.mem[x].cap))
  {
    hide Represents, AllBacked, Backed, RemovedFrom, Housed, Named, CteInsert;
    var cap, irq := c.mem[src].cap, c.mem[h].cap.irq;
    BackedAt(c.mem, h);
    ClearIrqHandler(c, h);
    ghost var m1 := c.mem;
    ghost var k := OccupiedIndex(m1, c.mdb, src);
    NodeIsNamed(m1, h);
    c.InsertCap(cap, src, NodeSlot(irq), k);
  }

  lemma NodeIsNamed(mem: Memory, h: nat)
    requires h in mem && mem[h].cap.IrqHandler?
    ensures Named(mem, NodeSlot(mem[h].cap.irq))
  {
    assert SlotAt(mem[h].cap, 0) == NodeSlot(mem[h].cap.irq);
    assert Names(mem[h].cap, NodeSlot(mem[h].cap.irq));
  }

  // ------------------------------------------------------------------ unexposed deletion

  /**
   * finaliseSlot, not exposed. It terminates on every CNode graph, cycles included: each round that
   * does not return leaves one more self-referential zombie.
   */
  method FinaliseUnexposed(c: Slots, e: nat, ghost reach: set<nat>)
    returns (status: Status, success: bool, cleanup: Cap)
    requires c.Valid() && AllBacked(c.mem) && e in c.mem && Closed(c.mdb.es, reach) && OccupantIn(c.mdb.es, e, reach)
    modifies c
    ensures c.Valid() && AllBacked(c.mem) && Advances(old(c.mem), old(c.mdb), c.mem, c.mdb, reach, e)
    ensures status.Done? && success ==> Finalised(c.mem, e, cleanup)
    ensures status.Done? && !success ==> e in c.mem && CyclicZombie(c.mem[e].cap, e)
    ensures status.Preempted? ==> !success
    ensures e in c.mem && c.mem[e].cap.Null? && !old(c.mem[e].cap.Null?) ==>
              |UnsettledSlots(c.mem)| < |UnsettledSlots(old(c.mem))|
    ensures !HasSlots(old(c.mem[e].cap)) ==> status.Done? && success
    ensures !HasSlots(old(c.mem[e].cap)) && !old(TakesNode(c.mem, e)) ==> c.mem == old(c.mem) && c.mdb == old(c.mdb)
  {
    hide Represents, FinalCapability, NeighboursIn, AllBacked, UnsettledSlots, Capacity, Advances, Closed, OccupantIn;
    hide NodeIsFree, RemovedFrom, Housed, TakesNode, Reaches;
    ghost var m0, d0 := c.mem, c.mdb;
    AdvancesNothing(m0, d0, reach, e);
    while !c.mem[e].cap.Null?
      invariant c.Valid() && AllBacked(c.mem) && e in c.mem && Advances(m0, d0, c.mem, c.mdb, reach, e)
      invariant (c.mem == m0 && c.mdb == d0) || (HasSlots(m0[e].cap) && |UnsettledSlots(c.mem)| < |UnsettledSlots(m0)|)
      decreases |UnsettledSlots(c.mem)|
    {
      ghost var m1, d1 := c.mem, c.mdb;
      AdvancesFacts(m0, d0, m1, d1, reach, e);
      ghost var k := OccupiedIndex(m1, d1, e);
      var cap := c.mem[e].cap;
      var final := FinalCapability(c.mem, e);
      var z := Remainder(cap, final);
      if CapRemovable(z, e) {
        NodeUnlessFinal(m1, e);
        if cap.IrqHandler? && final {
          ClearNode(c, e, reach);
          AdvancesTwice(m0, d0, m1, d1, c.mem, c.mdb, reach, e);
        }
        return Done, true, CleanupInfo(cap, final);
      }
      z := LeaveRemainder(c, e, k, reach);
      AdvancesTwice(m0, d0, m1, d1, c.mem, c.mdb, reach, e);
      if CyclicZombie(z, e) {
        return Done, false, Null;
      }
      ghost var m2, d2 := c.mem, c.mdb;
      AdvancesFacts(m0, d0, m2, d2, reach, e);
      ReduceUnexposed(c, e, reach);
      AdvancesTwice(m0, d0, m2, d2, c.mem, c.mdb, reach, e);
      AdvancesFacts(m0, d0, c.mem, c.mdb, reach, e);
      status := PreemptionPoint();
      if status.Preempted? {
        return Preempted, false, Null;
      }
    }
    NullIsEmpty(c.mem, c.mdb, e);
    return Done, true, Null;
  }

  lemma NodeUnlessFinal(mem: Memory, e: nat)
    requires NeighboursIn(mem, e)
    ensures !(mem[e].cap.IrqHandler? && FinalCapability(mem, e)) ==> NodeIsFree(mem, e)
  {
  }

  lemma PrunedShrinks(a: Mdb, b: Mdb)
    requires Pruned(a, b)
    ensures |b.es| <= |a.es|
  {
  }

  /** Once e is empty or holds its own zombie, no cap but zombies has a new place. */
  lemma EndIsSettled(mem: Memory, a: Mdb, m: Mdb, reach: set<nat>, e: nat)
    requires Represents(mem, m) && e in mem && Reaches(a, m, reach, e)
    requires mem[e] == EMPTY_CTE || mem[e].cap.Zombie?
    ensures Reaches(a, m, reach, 0)
  {
    hide Represents, Reaches;
    forall j: nat | j < |m.es| && m.es[j].slot == e ensures m.es[j].cap.Zombie? {
      OccupiedIsNonNull(mem, m, j);
      CapOfEntry(mem, m, j);
    }
    ReachesElsewhere(a, m, reach, e, 0);
  }

  /** emptySlot after finaliseSlot. */
  method EmptyFinalised(c: Slots, e: nat, cleanup: Cap, ghost reach: set<nat>)
    requires c.Valid() && AllBacked(c.mem) && Finalised(c.mem, e, cleanup) && c.mem[e] != EMPTY_CTE
    requires Closed(c.mdb.es, reach) && OccupantIn(c.mdb.es, e, reach)
    modifies c
    ensures c.Valid() && AllBacked(c.mem) && c.mem.Keys == old(c.mem.Keys) && c.mem[e] == EMPTY_CTE
    ensures forall x | x in c.mem && x != e :: c.mem[x].cap == old(c.mem[x].cap)
    ensures |c.mdb.es| == |old(c.mdb).es| - 1 && RemovedFrom(old(c.mdb), c.mdb, e)
    ensures Advances(old(c.mem), old(c.mdb), c.mem, c.mdb, reach, e)
  {
    hide Represents, FinalCapability, NeighboursIn, AllBacked, Backed, CapRemovable, Remainder, NodeIsFree;
    hide Pruned, Removed, Reaches, Closed, Dispensable, Ids, Housed, Advances;
    ghost var m1, d1 := c.mem, c.mdb;
    ghost var k := OccupiedIndex(m1, d1, e);
    RemovableIsDispensable(m1, d1, e);
    RepresentedIds(m1, d1);
    c.Empty(e, cleanup, k);
    RemovalPrunes(d1, k);
    RemovalReaches(d1, k, reach, e);
    ChangeAdvances(m1, d1, c.mem, c.mdb, reach, e);
  }

  /** cteDelete, not exposed. */
  method DeleteUnexposed(c: Slots, e: nat, ghost reach: set<nat>) returns (status: Status)
    requires c.Valid() && AllBacked(c.mem) && e in c.mem && Closed(c.mdb.es, reach) && OccupantIn(c.mdb.es, e, reach)
    modifies c
    ensures c.Valid() && AllBacked(c.mem) && Advances(old(c.mem), old(c.mdb), c.mem, c.mdb, reach, e) && e in c.mem
    ensures status.Done? ==> c.mem[e] == EMPTY_CTE || CyclicZombie(c.mem[e].cap, e)
    ensures |c.mdb.es| + |UnsettledSlots(c.mem)| <= |old(c.mdb).es| + |UnsettledSlots(old(c.mem))|
    ensures c.mem[e] == EMPTY_CTE && old(c.mem[e]) != EMPTY_CTE ==>
              |c.mdb.es| + |UnsettledSlots(c.mem)| < |old(c.mdb).es| + |UnsettledSlots(old(c.mem))|
    ensures status.Done? ==> Reaches(old(c.mdb), c.mdb, reach, 0)
  {
    hide UnsettledSlots, Represents, FinalCapability, NeighboursIn, AllBacked, Backed;
    hide Removed, CapRemovable, Remainder, Reaches, Closed, OccupantIn, Housed, Advances, NodeIsFree, RemovedFrom;
    ghost var m0, d0 := c.mem, c.mdb;
    if m0[e] != EMPTY_CTE { ghost var _ := OccupiedIndex(m0, d0, e); }
    var success, cleanup;
    status, success, cleanup := FinaliseUnexposed(c, e, reach);
    AdvancesFacts(m0, d0, c.mem, c.mdb, reach, e);
    if status.Done? && success && c.mem[e] != EMPTY_CTE {
      ghost var m1, d1 := c.mem, c.mdb;
      EmptyFinalised(c, e, cleanup, reach);
      AdvancesTwice(m0, d0, m1, d1, c.mem, c.mdb, reach, e);
      AdvancesFacts(m0, d0, c.mem, c.mdb, reach, e);
    }
    AdvancesReach(m0, d0, c.mem, c.mdb, reach, e);
    if status.Done? { EndIsSettled(c.mem, d0, c.mdb, reach, e); }
  }

  lemma AdvancesReach(m0: Memory, d0: Mdb, mem: Memory, d: Mdb, reach: set<nat>, e: nat)
    requires Advances(m0, d0, mem, d, reach, e)
    ensures Reaches(d0, d, reach, e) && Progress(m0, mem, e) && Leaves(m0, d0, mem, reach, e) && Pruned(d0, d)
  {
  }

  // ---------------------------------------------------------------------- exposed deletion

  /** The last slot that the zombie still counts. */
  function EndSlot(z: Cap): nat
    requires z.Zombie? && z.number > 0
  {
    SlotAt(z, z.number - 1)
  }

  lemma EndSlotExists(mem: Memory, z: Cap)
    requires z.Zombie? && z.number > 0 && Backed(mem, z)
    ensures EndSlot(z) in mem
  {
    assert SlotAt(z, z.number - 1) in mem;
  }

  /** With the zombie z still in s, its end slot cannot be left holding a zombie of its own. */
  lemma EndSlotIsEmptied(mem: Memory, m: Mdb, s: nat)
    requires Represents(mem, m) && AllBacked(mem) && s in mem && mem[s].cap.Zombie? && mem[s].cap.number > 0
    requires var e := EndSlot(mem[s].cap);
             e in mem && e != s && (mem[e] == EMPTY_CTE || CyclicZombie(mem[e].cap, e))
    ensures mem[EndSlot(mem[s].cap)] == EMPTY_CTE
  {
    var z, e := mem[s].cap, EndSlot(mem[s].cap);
    BackedAt(mem, s);
    if mem[e] != EMPTY_CTE {
      ZombieIsAlone(mem, m, s, e);
      hide Represents;
      SharedSlotOverlaps(z, mem[e].cap, z.number - 1);
    }
  }

  lemma BecomingCyclicSettles(m0: Memory, mem: Memory, s: nat)
    requires Progress(m0, mem, s) && s in m0 && Unsettled(m0, s) && !Unsettled(mem, s)
    ensures |UnsettledSlots(mem)| < |UnsettledSlots(m0)|
  {
    if Untouched(m0, mem, s) {
      assert UnsettledSlots(mem) <= UnsettledSlots(m0) - {s};
      SubsetSmaller(UnsettledSlots(mem), UnsettledSlots(m0) - {s});
    }
  }

  lemma MovedZombie(m0: Memory, mem: Memory, e: nat, s: nat)
    requires Progress(m0, mem, e) && s in m0 && s < WORD && s != e && m0[s].cap.Zombie? && mem[s].cap != m0[s].cap
    ensures CyclicZombie(mem[s].cap, s) && m0[s].cap.ptr != s && |UnsettledSlots(mem)| < |UnsettledSlots(m0)|
  {
  }

  /** The possible results of one exposed reduction of the zombie z in slot s. */
  predicate Reduced(m0: Memory, mem: Memory, z: Cap, s: nat)
    requires s in mem && z.Zombie? && z.number > 0
  {
    || mem[s].cap.Null?
    || mem[s].cap == Zombie(z.ptr, z.kind, z.number - 1)
    || (CyclicZombie(mem[s].cap, s) && |UnsettledSlots(mem)| < |UnsettledSlots(m0)|)
  }

  lemma CountDown(mem: Memory, s: nat, k: Cap)
    requires s in mem && AllBacked(mem) && mem[s].cap.Zombie? && mem[s].cap.number > 0
    requires k == Zombie(mem[s].cap.ptr, mem[s].cap.kind, mem[s].cap.number - 1)
    ensures IsZombieOf(mem[s].cap, k)
    ensures AllBacked(SetCap(mem, s, k)) && |UnsettledSlots(SetCap(mem, s, k))| <= |UnsettledSlots(mem)|
  {
    hide AllBacked, Backed, UnsettledSlots;
    CountDownBacked(mem, s, k);
    ZombieKeepsBacked(mem, s, k);
    ChangeAtEndSettles(mem, SetCap(mem, s, k), s);
  }

  lemma CountDownBacked(mem: Memory, s: nat, k: Cap)
    requires s in mem && AllBacked(mem) && mem[s].cap.Zombie? && mem[s].cap.number > 0
    requires k == Zombie(mem[s].cap.ptr, mem[s].cap.kind, mem[s].cap.number - 1)
    ensures Backed(mem, k)
  {
    BackedAt(mem, s);
    hide AllBacked;
    BackedAlike(mem, mem[s].cap, k);
  }

  /** The zombie in s accounts for the end slot, so the cap in there may be reached with it. */
  lemma EndSlotIsReached(mem: Memory, m: Mdb, s: nat, reach: set<nat>)
    requires Represents(mem, m) && s in mem && mem[s].cap.Zombie? && mem[s].cap.number > 0
    requires Closed(m.es, reach) && OccupantIn(m.es, s, reach)
    ensures OccupantIn(m.es, EndSlot(mem[s].cap), reach)
    ensures Spares(m.es, reach, s) ==> EndSlot(mem[s].cap) != s && mem[s].cap.ptr != s
  {
    var z := mem[s].cap;
    assert Names(z, EndSlot(z));
    assert SlotAt(z, 0) == z.ptr;
    assert Names(z, z.ptr);
    var k := OccupiedIndex(mem, m, s);
    hide Represents, Names;
    OccupantInside(m.es, k, EndSlot(z), reach);
    if Spares(m.es, reach, s) { SparedIsNotNamed(m.es, k, reach, s); }
  }

  /** The end slot of the zombie in s is empty: it counts one slot less. */
  method CountOff(c: Slots, s: nat, ghost reach: set<nat>)
    requires c.Valid() && AllBacked(c.mem) && s in c.mem && c.mem[s].cap.Zombie? && c.mem[s].cap.number > 0
    requires var e := EndSlot(c.mem[s].cap); e in c.mem && e != s && c.mem[e] == EMPTY_CTE
    requires Closed(c.mdb.es, reach) && OccupantIn(c.mdb.es, s, reach)
    modifies c
    ensures c.Valid() && AllBacked(c.mem) && c.mem.Keys == old(c.mem.Keys)
    ensures var z := old(c.mem[s].cap); c.mem[s].cap == Zombie(z.ptr, z.kind, z.number - 1)
    ensures |UnsettledSlots(c.mem)| <= |UnsettledSlots(old(c.mem))| && |c.mdb.es| == |old(c.mdb).es|
    ensures Pruned(old(c.mdb), c.mdb) && Reaches(old(c.mdb), c.mdb, reach, 0)
    ensures Housed(old(c.mem)) ==> Housed(c.mem)
  {
    hide Represents, FinalCapability, NeighboursIn, AllBacked, Backed, Pruned, UnsettledSlots, IsZombieOf;
    hide Reaches, Closed, Housed;
    ghost var m1, d1 := c.mem, c.mdb;
    ghost var k := OccupiedIndex(m1, d1, s);
    var z := c.mem[s].cap;
    var less := Zombie(z.ptr, z.kind, z.number - 1);
    CountDown(m1, s, less);
    FinalZombie(m1, s);
    c.BecomeZombie(s, less, k);
    ZombieKeepsIds(d1, k, less);
    SameIdsArePruned(d1, c.mdb);
    ZombieReaches(d1, k, less, reach, 0);
    if Housed(m1) { CountDownKeepsHoused(m1, c.mem, s); }
  }

  /** reduceZombie, exposed: empty the zombie's last slot, then count it off. */
  method ReduceExposed(c: Slots, s: nat, ghost reach: set<nat>) returns (status: Status)
    requires c.Valid() && AllBacked(c.mem) && s in c.mem && c.mem[s].cap.Zombie? && !CapRemovable(c.mem[s].cap, s)
    requires Closed(c.mdb.es, reach) && OccupantIn(c.mdb.es, s, reach)
    modifies c
    ensures c.Valid() && AllBacked(c.mem) && Pruned(old(c.mdb), c.mdb) && c.mem.Keys == old(c.mem.Keys)
    ensures |UnsettledSlots(c.mem)| <= |UnsettledSlots(old(c.mem))|
    ensures |c.mdb.es| + |UnsettledSlots(c.mem)| <= |old(c.mdb).es| + |UnsettledSlots(old(c.mem))|
    ensures c.mem[s].cap.Null? ==>
              |c.mdb.es| + |UnsettledSlots(c.mem)| < |old(c.mdb).es| + |UnsettledSlots(old(c.mem))|
    ensures status.Done? ==> Reduced(old(c.mem), c.mem, old(c.mem[s].cap), s)
    ensures Spares(old(c.mdb).es, reach, s) ==>
              var z := old(c.mem[s].cap);
              c.mem[s].cap == if status.Done? then Zombie(z.ptr, z.kind, z.number - 1) else z
    ensures Reaches(old(c.mdb), c.mdb, reach, if status.Done? then 0 else EndSlot(old(c.mem[s].cap)))
    ensures Housed(old(c.mem)) ==> Housed(c.mem)
  {
    hide Represents, FinalCapability, NeighboursIn, AllBacked, Backed, Progress, Pruned, UnsettledSlots, IsZombieOf;
    hide WithCap, Reaches, Closed, OccupantIn, Outside, Spares, Housed, Advances;
    ghost var m0, d0 := c.mem, c.mdb;
    var z := c.mem[s].cap;
    BackedAt(m0, s);
    ZombieIsOrdinary(m0, s);
    EndSlotExists(m0, z);
    EndSlotIsReached(m0, d0, s, reach);
    var e := EndSlot(z);
    assert s == e ==> Unsettled(m0, s);
    status := DeleteUnexposed(c, e, reach);
    AdvancesReach(m0, d0, c.mem, c.mdb, reach, e);
    AdvancesFacts(m0, d0, c.mem, c.mdb, reach, e);
    ProgressFacts(m0, c.mem, e);
    if s == e {
      if c.mem[s].cap.Null? { NullIsEmpty(c.mem, c.mdb, s); }
      if status.Done? && !c.mem[s].cap.Null? { BecomingCyclicSettles(m0, c.mem, s); }
    } else if status.Done? {
      if c.mem[s].cap == z {
        EndSlotIsEmptied(c.mem, c.mdb, s);
        ghost var d1 := c.mdb;
        ReachesFacts(d0, d1, reach, 0);
        OccupantStays(d0.es, d1.es, reach, s);
        CountOff(c, s, reach);
        PrunedTransitive(d0, d1, c.mdb);
        ReachesTransitive(d0, d1, c.mdb, reach, 0);
      } else {
        MovedZombie(m0, c.mem, e, s);
        assert c.mem[s].cap.ptr == s && z.ptr != s;
      }
    }
  }

  lemma ProgressFacts(m0: Memory, mem: Memory, e: nat)
    requires Progress(m0, mem, e)
    ensures Settles(m0, mem, e) && |UnsettledSlots(mem)| <= |UnsettledSlots(m0)|
  {
  }

  /** Bounds how often a cap can still be reduced in place. */
  function Weight(c: Cap): nat {
    match c
    case Zombie(_, _, n) => n + 1
    case Null => 0
    case _ => Capacity(c) + 2
  }

  /** Only caps of the set were touched; and if the work was not preempted, only zombies have new places. */
  ghost predicate Touched(a: Mdb, b: Mdb, reach: set<nat>, status: Status) {
    && Closed(b.es, reach) && Outside(b.es, reach) == Outside(a.es, reach) && Sparing(a, b, reach)
    && (status.Done? ==> InPlace(a, b, 0))
  }

  lemma TouchedStart(m: Mdb, reach: set<nat>)
    requires Closed(m.es, reach)
    ensures Touched(m, m, reach, Done)
  {
    ReachesNothing(m, reach, 0);
  }

  lemma TouchedParts(a: Mdb, b: Mdb, reach: set<nat>, status: Status)
    requires Touched(a, b, reach, status)
    ensures Closed(b.es, reach) && Outside(b.es, reach) == Outside(a.es, reach) && Sparing(a, b, reach)
    ensures status.Done? ==> Reaches(a, b, reach, 0)
  {
  }

  lemma TouchedTwice(a: Mdb, b: Mdb, c: Mdb, reach: set<nat>, status: Status)
    requires Touched(a, b, reach, Done) && Touched(b, c, reach, status)
    ensures Touched(a, c, reach, status)
  {
    if status.Done? { ReachesTransitive(a, b, c, reach, 0); }
  }

  lemma TouchedAnyway(a: Mdb, b: Mdb, reach: set<nat>, status: Status)
    requires Touched(a, b, reach, Done)
    ensures Touched(a, b, reach, status)
  {
  }

  lemma TouchedAtEnd(a: Mdb, b: Mdb, reach: set<nat>)
    requires Reaches(a, b, reach, 0)
    ensures Touched(a, b, reach, Done)
  {
  }

  lemma TouchedRound(a: Mdb, b: Mdb, c: Mdb, reach: set<nat>, e: nat, s: nat, status: Status)
    requires Reaches(a, b, reach, 0) && Reaches(b, c, reach, e) && (status.Done? ==> e == 0)
             && OccupantIn(a.es, s, reach)
    ensures Touched(a, c, reach, status) && OccupantIn(c.es, s, reach)
  {
    if status.Done? { ReachesTransitive(a, b, c, reach, 0); }
    OccupantStays(a.es, c.es, reach, s);
  }

  lemma SparedThrough(a: Mdb, b: Mdb, reach: set<nat>, x: nat)
    requires Sparing(a, b, reach) && Spares(a.es, reach, x)
    ensures Spares(b.es, reach, x)
  {
  }

  lemma ZombieOfZombie(c: Cap, z: Cap, less: Cap)
    requires IsZombieOf(c, z) && less.Zombie? && less.ptr == z.ptr && less.kind == z.kind
    ensures IsZombieOf(c, less)
  {
  }

  /** One round of the loop below: the cap becomes a zombie if it is not one, and is reduced. */
  method ExposedRound(c: Slots, s: nat, ghost k: nat, ghost reach: set<nat>) returns (status: Status)
    requires c.Valid() && AllBacked(c.mem) && Occupies(c.mdb.es, k, s) && NeighboursIn(c.mem, s)
    requires !CapRemovable(Remainder(c.mem[s].cap, FinalCapability(c.mem, s)), s)
    requires Closed(c.mdb.es, reach) && OccupantIn(c.mdb.es, s, reach)
    modifies c
    ensures c.Valid() && AllBacked(c.mem) && Pruned(old(c.mdb), c.mdb) && s in c.mem && c.mem.Keys == old(c.mem.Keys)
    ensures |c.mdb.es| + |UnsettledSlots(c.mem)| <= |old(c.mdb).es| + |UnsettledSlots(old(c.mem))|
    ensures c.mem[s].cap.Null? ==>
              |c.mdb.es| + |UnsettledSlots(c.mem)| < |old(c.mdb).es| + |UnsettledSlots(old(c.mem))|
    ensures status.Done? && |UnsettledSlots(c.mem)| >= |UnsettledSlots(old(c.mem))| ==>
              && |UnsettledSlots(c.mem)| == |UnsettledSlots(old(c.mem))|
              && Weight(c.mem[s].cap) < Weight(old(c.mem[s].cap))
    ensures HasSlots(old(c.mem[s].cap))
    ensures Spares(old(c.mdb).es, reach, s) ==> IsZombieOf(old(c.mem[s].cap), c.mem[s].cap)
    ensures Touched(old(c.mdb), c.mdb, reach, status) && OccupantIn(c.mdb.es, s, reach)
    ensures Housed(old(c.mem)) ==> Housed(c.mem)
  {
    hide Represents, FinalCapability, NeighboursIn, AllBacked, Pruned, UnsettledSlots, Capacity, IsZombieOf;
    hide Reaches, Closed, OccupantIn, Touched, Outside, Housed, Spares, Sparing, Advances;
    ghost var m0, d0 := c.mem, c.mdb;
    NextInMemory(m0, s);
    ghost var was, final := m0[s].cap, FinalCapability(m0, s);
    var z := LeaveRemainder(c, s, k, reach);
    WeightOfRemainder(was, final, s);
    ghost var m1, d1 := c.mem, c.mdb;
    AdvancesFacts(m0, d0, m1, d1, reach, s);
    AdvancesReach(m0, d0, m1, d1, reach, s);
    ReachesFacts(d0, d1, reach, 0);
    status := ReduceExposed(c, s, reach);
    PrunedTransitive(d0, d1, c.mdb);
    TouchedRound(d0, d1, c.mdb, reach, if status.Done? then 0 else EndSlot(z), s, status);
    if Spares(d0.es, reach, s) {
      SparedThrough(d0, d1, reach, s);
      ZombieOfZombie(was, z, c.mem[s].cap);
    }
  }

  /** The last cap to an object with slots, in a slot that lies in no object the deletion reaches. */
  predicate Outlying(mem: Memory, m: Mdb, reach: set<nat>, s: nat) {
    NeighboursIn(mem, s) && HasSlots(mem[s].cap) && FinalCapability(mem, s) && Spares(m.es, reach, s)
  }

  /** What finaliseCap does beside the cap: the last cap to an interrupt takes the cap in the node with it. */
  method Release(c: Slots, s: nat, ghost reach: set<nat>)
    requires c.Valid() && AllBacked(c.mem) && NeighboursIn(c.mem, s)
    requires CapRemovable(Remainder(c.mem[s].cap, FinalCapability(c.mem, s)), s)
    requires Closed(c.mdb.es, reach) && OccupantIn(c.mdb.es, s, reach)
    modifies c
    ensures c.Valid() && AllBacked(c.mem) && Pruned(old(c.mdb), c.mdb) && c.mem.Keys == old(c.mem.Keys) && s in c.mem
    ensures c.mem[s].cap == old(c.mem[s].cap) && |UnsettledSlots(c.mem)| <= |UnsettledSlots(old(c.mem))|
    ensures Finalised(c.mem, s, CleanupInfo(old(c.mem[s].cap), old(FinalCapability(c.mem, s))))
    ensures Touched(old(c.mdb), c.mdb, reach, Done) && OccupantIn(c.mdb.es, s, reach)
    ensures if old(TakesNode(c.mem, s)) then RemovedFrom(old(c.mdb), c.mdb, old(NodeSlot(c.mem[s].cap.irq)))
            else c.mem == old(c.mem) && c.mdb == old(c.mdb)
    ensures Housed(old(c.mem)) ==> Housed(c.mem)
  {
    NextInMemory(c.mem, s);
    ghost var m1, d1 := c.mem, c.mdb;
    hide Represents, FinalCapability, NeighboursIn, AllBacked, Pruned, UnsettledSlots;
    hide Closed, OccupantIn, Touched, Housed;
    hide NodeIsFree, RemovedFrom, Reaches, Advances;
    NodeUnlessFinal(m1, s);
    TouchedStart(d1, reach);
    SameIdsArePruned(d1, d1);
    if c.mem[s].cap.IrqHandler? && FinalCapability(c.mem, s) {
      ClearNode(c, s, reach);
      AdvancesFacts(m1, d1, c.mem, c.mdb, reach, s);
      AdvancesReach(m1, d1, c.mem, c.mdb, reach, s);
      TouchedAtEnd(d1, c.mdb, reach);
    }
  }

  /** Release, as the last step of a deletion that began with the lists d0. */
  method ReleaseFrom(c: Slots, s: nat, ghost reach: set<nat>, ghost d0: Mdb)
    requires c.Valid() && AllBacked(c.mem) && NeighboursIn(c.mem, s)
    requires CapRemovable(Remainder(c.mem[s].cap, FinalCapability(c.mem, s)), s)
    requires OccupantIn(c.mdb.es, s, reach) && Pruned(d0, c.mdb) && Touched(d0, c.mdb, reach, Done)
    modifies c
    ensures c.Valid() && AllBacked(c.mem) && Pruned(d0, c.mdb) && c.mem.Keys == old(c.mem.Keys) && s in c.mem
    ensures |c.mdb.es| <= |old(c.mdb).es|
    ensures c.mem[s].cap == old(c.mem[s].cap) && |UnsettledSlots(c.mem)| <= |UnsettledSlots(old(c.mem))|
    ensures Finalised(c.mem, s, CleanupInfo(old(c.mem[s].cap), old(FinalCapability(c.mem, s))))
    ensures Touched(d0, c.mdb, reach, Done) && OccupantIn(c.mdb.es, s, reach)
    ensures if old(TakesNode(c.mem, s)) then RemovedFrom(old(c.mdb), c.mdb, old(NodeSlot(c.mem[s].cap.irq)))
            else c.mem == old(c.mem) && c.mdb == old(c.mdb)
    ensures Housed(old(c.mem)) ==> Housed(c.mem)
  {
    hide Represents, FinalCapability, NeighboursIn, AllBacked, Pruned, UnsettledSlots, CapRemovable, Remainder;
    hide Closed, OccupantIn, Touched, Housed, Finalised, TakesNode, RemovedFrom;
    ghost var d1 := c.mdb;
    TouchedParts(d0, d1, reach, Done);
    Release(c, s, reach);
    PrunedTransitive(d0, d1, c.mdb);
    PrunedShrinks(d1, c.mdb);
    TouchedTwice(d0, d1, c.mdb, reach, Done);
  }

  /** A round of such a deletion. */
  method ExposedRoundFrom(c: Slots, s: nat, ghost k: nat, ghost reach: set<nat>, ghost d0: Mdb)
    returns (status: Status)
    requires c.Valid() && AllBacked(c.mem) && Occupies(c.mdb.es, k, s) && NeighboursIn(c.mem, s)
    requires !CapRemovable(Remainder(c.mem[s].cap, FinalCapability(c.mem, s)), s)
    requires OccupantIn(c.mdb.es, s, reach) && Pruned(d0, c.mdb) && Touched(d0, c.mdb, reach, Done)
    modifies c
    ensures c.Valid() && AllBacked(c.mem) && Pruned(d0, c.mdb) && s in c.mem && c.mem.Keys == old(c.mem.Keys)
    ensures |c.mdb.es| + |UnsettledSlots(c.mem)| <= |old(c.mdb).es| + |UnsettledSlots(old(c.mem))|
    ensures c.mem[s].cap.Null? ==>
              |c.mdb.es| + |UnsettledSlots(c.mem)| < |old(c.mdb).es| + |UnsettledSlots(old(c.mem))|
    ensures status.Done? && |UnsettledSlots(c.mem)| >= |UnsettledSlots(old(c.mem))| ==>
              && |UnsettledSlots(c.mem)| == |UnsettledSlots(old(c.mem))|
              && Weight(c.mem[s].cap) < Weight(old(c.mem[s].cap))
    ensures HasSlots(old(c.mem[s].cap))
    ensures Spares(old(c.mdb).es, reach, s) ==> IsZombieOf(old(c.mem[s].cap), c.mem[s].cap)
    ensures Touched(d0, c.mdb, reach, status) && OccupantIn(c.mdb.es, s, reach)
    ensures Housed(old(c.mem)) ==> Housed(c.mem)
  {
    hide Represents, FinalCapability, NeighboursIn, AllBacked, Pruned, UnsettledSlots, CapRemovable, Remainder;
    hide Closed, OccupantIn, Touched, Housed, Spares, IsZombieOf, HasSlots, Weight;
    ghost var d1 := c.mdb;
    TouchedParts(d0, d1, reach, Done);
    status := ExposedRound(c, s, k, reach);
    PrunedTransitive(d0, d1, c.mdb);
    TouchedTwice(d0, d1, c.mdb, reach, status);
  }

  /** finaliseSlot, exposed. */
  method FinaliseExposed(c: Slots, s: nat, ghost reach: set<nat>) returns (status: Status, cleanup: Cap)
    requires c.Valid() && AllBacked(c.mem) && s in c.mem && Closed(c.mdb.es, reach) && OccupantIn(c.mdb.es, s, reach)
    modifies c
    ensures c.Valid() && AllBacked(c.mem) && Pruned(old(c.mdb), c.mdb) && s in c.mem && c.mem.Keys == old(c.mem.Keys)
    ensures |c.mdb.es| + |UnsettledSlots(c.mem)| <= |old(c.mdb).es| + |UnsettledSlots(old(c.mem))|
    ensures c.mem[s].cap.Null? && !old(c.mem[s].cap.Null?) ==>
              |c.mdb.es| + |UnsettledSlots(c.mem)| < |old(c.mdb).es| + |UnsettledSlots(old(c.mem))|
    ensures status.Done? ==> Finalised(c.mem, s, cleanup)
    ensures !HasSlots(old(c.mem[s].cap)) ==> status.Done?
    ensures !HasSlots(old(c.mem[s].cap)) && !old(TakesNode(c.mem, s)) ==> c.mem == old(c.mem) && c.mdb == old(c.mdb)
    ensures old(TakesNode(c.mem, s)) ==>
              RemovedFrom(old(c.mdb), c.mdb, NodeSlot(old(c.mem[s].cap).irq)) && c.mem[s].cap == old(c.mem[s].cap)
    ensures old(Outlying(c.mem, c.mdb, reach, s)) ==> IsSpent(old(c.mem[s].cap), c.mem[s].cap, status)
    ensures Touched(old(c.mdb), c.mdb, reach, status) && OccupantIn(c.mdb.es, s, reach)
    ensures Housed(old(c.mem)) ==> Housed(c.mem)
  {
    hide Represents, FinalCapability, NeighboursIn, AllBacked, Pruned, UnsettledSlots;
    hide Closed, OccupantIn, Touched, Housed, Finalised, Outlying;
    hide Spares, Sparing, IsZombieOf, NodeIsFree, RemovedFrom, Reaches, Capacity, CapRemovable, Remainder;
    ghost var m0, d0, bound := c.mem, c.mdb, |c.mdb.es| + |UnsettledSlots(c.mem)|;
    ghost var outlying := Outlying(m0, d0, reach, s);
    if outlying { OutlyingHasSlots(m0, d0, reach, s); }
    SameIdsArePruned(d0, d0);
    TouchedStart(d0, reach);
    while !c.mem[s].cap.Null?
      invariant c.Valid() && AllBacked(c.mem) && s in c.mem && Pruned(d0, c.mdb) && c.mem.Keys == m0.Keys
      invariant |c.mdb.es| + |UnsettledSlots(c.mem)| <= bound
      invariant c.mem[s].cap.Null? && !m0[s].cap.Null? ==> |c.mdb.es| + |UnsettledSlots(c.mem)| < bound
      invariant HasSlots(m0[s].cap) || (c.mem == m0 && c.mdb == d0)
      invariant Touched(d0, c.mdb, reach, Done) && OccupantIn(c.mdb.es, s, reach)
      invariant Housed(m0) ==> Housed(c.mem)
      invariant outlying ==> c.mem == m0 || IsZombieOf(m0[s].cap, c.mem[s].cap)
      decreases |UnsettledSlots(c.mem)|, Weight(c.mem[s].cap)
    {
      ghost var m1, d1 := c.mem, c.mdb;
      ghost var k := OccupiedIndex(m1, d1, s);
      TouchedParts(d0, d1, reach, Done);
      if outlying { SparedThrough(d0, d1, reach, s); }
      var cap := c.mem[s].cap;
      var final := FinalCapability(c.mem, s);
      if CapRemovable(Remainder(cap, final), s) {
        if outlying { OutlyingIsSpent(m0, m1, d1, s, reach); }
        ReleaseFrom(c, s, reach, d0);
        return Done, CleanupInfo(cap, final);
      }
      status := ExposedRoundFrom(c, s, k, reach, d0);
      if outlying { ZombieStaysZombie(m0[s].cap, m1[s].cap, c.mem[s].cap); }
      if status.Preempted? {
        return Preempted, Null;
      }
      status := PreemptionPoint();
      if status.Preempted? {
        TouchedAnyway(d0, c.mdb, reach, Preempted);
        return Preempted, Null;
      }
    }
    if outlying { ZombieIsNotNull(m0[s].cap, c.mem[s].cap); }
    NullIsEmpty(c.mem, c.mdb, s);
    EmptyIsFinalised(c.mem, s);
    return Done, Null;
  }

  /** What is left of the cap is its zombie; once the work is done, one that counts no slot any more. */
  predicate IsSpent(was: Cap, cap: Cap, status: Status) {
    status.Done? ==> IsZombieOf(was, cap) && cap.number == 0
  }

  lemma ZombieStaysZombie(was: Cap, cap: Cap, z: Cap)
    requires (cap == was || IsZombieOf(was, cap)) && IsZombieOf(cap, z)
    ensures IsZombieOf(was, z)
  {
  }

  lemma ZombieIsNotNull(was: Cap, z: Cap)
    requires HasSlots(was) && (z == was || IsZombieOf(was, z))
    ensures !z.Null?
  {
  }

  /** A removable cap whose slot no cap of the set stands for, itself included, counts no slot any more. */
  lemma OutlyingIsSpent(m0: Memory, mem: Memory, m: Mdb, s: nat, reach: set<nat>)
    requires Represents(mem, m) && AllBacked(mem) && s in mem && s in m0 && NeighboursIn(mem, s) && HasSlots(m0[s].cap)
    requires IsZombieOf(m0[s].cap, mem[s].cap) || (mem == m0 && FinalCapability(mem, s))
    requires CapRemovable(Remainder(mem[s].cap, FinalCapability(mem, s)), s)
    requires Spares(m.es, reach, s) && OccupantIn(m.es, s, reach)
    ensures IsSpent(m0[s].cap, mem[s].cap, Done)
  {
    NullIsEmptyOrNot(mem, m, s);
    var k := OccupiedIndex(mem, m, s);
    var c := mem[s].cap;
    hide Represents, FinalCapability, AllBacked;
    SparedIsNotNamed(m.es, k, reach, s);
    assert SlotAt(c, 0) == SlotBase(c);
    assert Counted(c) > 0 ==> Names(c, SlotBase(c));
  }

  lemma NullIsEmptyOrNot(mem: Memory, m: Mdb, s: nat)
    requires Represents(mem, m) && s in mem && HasSlots(mem[s].cap)
    ensures mem[s] != EMPTY_CTE
  {
  }

  lemma WeightOfRemainder(c: Cap, final: bool, s: nat)
    requires !CapRemovable(Remainder(c, final), s) && Remainder(c, final).Zombie?
    ensures var z := Remainder(c, final); z.number > 0 && z.number < Weight(c)
  {
  }

  /** The slots that the zombie in s does not count any more are empty. */
  lemma UncountedIsEmpty(mem: Memory, m: Mdb, s: nat, i: nat)
    requires Represents(mem, m) && AllBacked(mem) && Housed(mem) && s in mem && mem[s].cap.Zombie?
    requires mem[s].cap.number <= i < Capacity(mem[s].cap)
    ensures SlotAt(mem[s].cap, i) in mem && mem[SlotAt(mem[s].cap, i)].cap.Null?
  {
    var z, x := mem[s].cap, SlotAt(mem[s].cap, i);
    BackedAt(mem, s);
    ZombieObject(mem, m, s, i);
    if !mem[x].cap.Null? {
      HousedAt(mem, x);
      var t :| t in mem && Names(mem[t].cap, x);
      NotNamed(mem, m, s, i, t);
    }
  }

  lemma ZombieObject(mem: Memory, m: Mdb, s: nat, i: nat)
    requires Represents(mem, m) && s in mem && HasSlots(mem[s].cap) && i < Capacity(mem[s].cap)
    ensures SlotAt(mem[s].cap, i) < WORD
  {
    var k := OccupiedIndex(mem, m, s);
    assert EntryOk(m.es[k]);
    hide Represents;
    SlotsAreInside(mem[s].cap, i);
  }

  lemma OtherSlot(c: Cap, j: nat, i: nat)
    requires j < i
    ensures SlotAt(c, j) != SlotAt(c, i)
  {
  }

  lemma ApartSlots(a: Cap, b: Cap, i: nat, j: nat)
    requires HasSlots(a) && i < Capacity(a) && j < Capacity(b) && SlotAt(a, i) < WORD
    requires HasSlots(b) ==> !Overlap(a, b)
    ensures SlotAt(b, j) != SlotAt(a, i)
  {
    if HasSlots(b) {
      SlotsAreInside(a, i);
      SlotsAreInside(b, j);
      hide SlotAt, ObjectEnd, ObjectBase;
    }
  }

  /** No cap stands for a slot that the zombie in s does not count any more. */
  lemma NotNamed(mem: Memory, m: Mdb, s: nat, i: nat, t: nat)
    requires Represents(mem, m) && AllBacked(mem) && s in mem && mem[s].cap.Zombie? && t in mem
    requires mem[s].cap.number <= i < Capacity(mem[s].cap) && SlotAt(mem[s].cap, i) < WORD
    ensures !Names(mem[t].cap, SlotAt(mem[s].cap, i))
  {
    var z, c := mem[s].cap, mem[t].cap;
    hide Represents, AllBacked, Overlap, SlotAt, Capacity;
    BackedAt(mem, t);
    if t != s && HasSlots(c) { ZombieIsAlone(mem, m, s, t); }
    forall j: nat | j < Counted(c) ensures SlotAt(c, j) != SlotAt(z, i) {
      if t == s { OtherSlot(z, j, i); } else { ApartSlots(z, c, i, j); }
    }
  }

  /**
   * cteDelete, exposed: on success the slot is empty. Nothing is touched outside any set of caps that has the
   * deleted one and, with each cap, those in the slots that it stands for. If the deleted cap is the last one to its
   * object and no cap of such a set stands for the slot itself, then every slot of the object is empty afterwards.
   */
  method Delete(c: Slots, s: nat, ghost k: nat, ghost reach: set<nat>) returns (status: Status)
    requires c.Valid() && AllBacked(c.mem) && s in c.mem && (c.mem[s] != EMPTY_CTE ==> Occupies(c.mdb.es, k, s))
    requires Closed(c.mdb.es, reach) && OccupantIn(c.mdb.es, s, reach)
    modifies c
    ensures c.Valid() && AllBacked(c.mem) && Pruned(old(c.mdb), c.mdb) && c.mem.Keys == old(c.mem.Keys)
    ensures status.Done? ==> c.mem[s] == EMPTY_CTE
    ensures status.Done? && old(c.mem[s]) != EMPTY_CTE ==>
              |c.mdb.es| + |UnsettledSlots(c.mem)| < |old(c.mdb).es| + |UnsettledSlots(old(c.mem))|
    ensures !HasSlots(old(c.mem[s].cap)) ==> status.Done?
    ensures !HasSlots(old(c.mem[s].cap)) && !old(TakesNode(c.mem, s)) ==>
              c.mdb == if old(c.mem[s]) == EMPTY_CTE then old(c.mdb) else Removed(old(c.mdb), k)
    ensures old(TakesNode(c.mem, s)) ==> RemovedBoth(old(c.mdb), c.mdb, NodeSlot(old(c.mem[s].cap).irq), s)
    ensures Touched(old(c.mdb), c.mdb, reach, status)
    ensures Housed(old(c.mem)) ==> Housed(c.mem)
    ensures status.Done? && Housed(old(c.mem)) && old(Outlying(c.mem, c.mdb, reach, s)) ==>
              AllEmpty(c.mem, old(c.mem[s].cap))
  {
    hide Represents, FinalCapability, NeighboursIn, AllBacked, Backed, Pruned, Removed, CapRemovable, Remainder;
    hide UnsettledSlots, Reaches, Closed, OccupantIn, Touched, Housed, Advances;
    hide NodeIsFree, Outlying, AllEmpty, IsSpent;
    ghost var m0, d0 := c.mem, c.mdb;
    if m0[s] != EMPTY_CTE { OccupiedIsNonNull(m0, d0, k); }
    var cleanup;
    status, cleanup := FinaliseExposed(c, s, reach);
    ghost var m1, d1 := c.mem, c.mdb;
    if status.Done? && c.mem[s] != EMPTY_CTE {
      TouchedParts(d0, d1, reach, Done);
      EmptyFinalised(c, s, cleanup, reach);
      AdvancesFacts(m1, d1, c.mem, c.mdb, reach, s);
      AdvancesReach(m1, d1, c.mem, c.mdb, reach, s);
      ghost var k' :| Occupies(d1.es, k', s) && c.mdb == Removed(d1, k');
      OneIndex(m1, d1, k', if d1 == d0 then k else k');
      PrunedTransitive(d0, d1, c.mdb);
      EndIsSettled(c.mem, d1, c.mdb, reach, s);
      ReachesTransitive(d0, d1, c.mdb, reach, 0);
      TouchedAtEnd(d0, c.mdb, reach);
    }
    if status.Done? && Housed(m0) && Outlying(m0, d0, reach, s) {
      OutlyingHasSlots(m0, d0, reach, s);
      SpentIsEmpty(m0[s].cap, m1, d1, c.mem, c.mdb, s);
    }
  }

  lemma OutlyingHasSlots(mem: Memory, m: Mdb, reach: set<nat>, s: nat)
    requires Outlying(mem, m, reach, s)
    ensures NeighboursIn(mem, s) && HasSlots(mem[s].cap) && FinalCapability(mem, s) && Spares(m.es, reach, s)
  {
  }

  lemma SameSlots(was: Cap, z: Cap, i: nat)
    requires IsZombieOf(was, z)
    ensures z.Zombie? && Capacity(z) == Capacity(was) && SlotAt(z, i) == SlotAt(was, i)
  {
  }

  /** First the cap in n left the lists, then the one in s. */
  ghost predicate RemovedBoth(a: Mdb, b: Mdb, n: nat, s: nat) {
    exists m :: RemovedFrom(a, m, n) && RemovedFrom(m, b, s)
  }

  /** Every slot that the cap stands for is empty. */
  predicate AllEmpty(mem: Memory, c: Cap) {
    forall i: nat | i < Capacity(c) :: SlotAt(c, i) in mem && mem[SlotAt(c, i)] == EMPTY_CTE
  }

  lemma SpentIsEmpty(was: Cap, m1: Memory, d1: Mdb, mem: Memory, d: Mdb, s: nat)
    requires Represents(m1, d1) && AllBacked(m1) && Housed(m1) && s in m1 && IsSpent(was, m1[s].cap, Done)
             && HasSlots(was)
    requires Represents(mem, d) && mem.Keys == m1.Keys && mem[s] == EMPTY_CTE
    requires forall x | x in mem && x != s :: mem[x].cap == m1[x].cap
    ensures AllEmpty(mem, was)
  {
    hide Represents, AllBacked, Housed, Capacity, SlotAt, IsZombieOf;
    var z := m1[s].cap;
    forall i: nat | i < Capacity(was) ensures SlotAt(was, i) in mem && mem[SlotAt(was, i)] == EMPTY_CTE {
      SameSlots(was, z, i);
      UncountedIsEmpty(m1, d1, s, i);
      NullIsEmpty(mem, d, SlotAt(was, i));
    }
  }

  /** A CNode of two slots whose only cap lies in its own second slot. */
  const OWN_CAP := CNode(64, 1, 0, 0)
  const OWN_ZOMBIE := Zombie(64, ZombieCNode(1), 2)

  function OwnSlot(cap: Cap): Memory {
    map[64 := EMPTY_CTE, 96 := Cte(cap, 0, 0, true, true)]
  }

  function OwnLists(): Mdb {
    Mdb([Entry(96, true, OWN_CAP, true, true, 0, {}, Unbadged, Given(OWN_CAP))], 1, {})
  }

  /** It is a state that meets every invariant, with the last cap to its object in a slot of that object. */
  lemma OwnSlotIsValid()
    ensures Represents(OwnSlot(OWN_CAP), OwnLists()) && AllBacked(OwnSlot(OWN_CAP)) && Housed(OwnSlot(OWN_CAP))
    ensures FinalCapability(OwnSlot(OWN_CAP), 96) && !Spares(OwnLists().es, {0}, 96)
  {
    hide Represents, AllBacked, Housed;
    OwnSlotIsRepresented();
    var mem := OwnSlot(OWN_CAP);
    assert Pow2(1) == 2;
    assert SlotAt(OWN_CAP, 0) == 64 && SlotAt(OWN_CAP, 1) == 96;
    assert Names(mem[96].cap, 96);
    assert OwnLists().es[0].id in {0} && Names(OwnLists().es[0].cap, 96);
    OwnSlotIsHoused(mem);
  }

  lemma OwnSlotIsHoused(mem: Memory)
    requires mem == OwnSlot(OWN_CAP) && Names(mem[96].cap, 96) && Capacity(OWN_CAP) == 2
    requires SlotAt(OWN_CAP, 0) == 64 && SlotAt(OWN_CAP, 1) == 96
    ensures AllBacked(mem) && Housed(mem)
  {
    hide Names, SlotAt;
    assert Named(mem, 96);
  }

  lemma OwnSlotIsRepresented()
    ensures Represents(OwnSlot(OWN_CAP), OwnLists())
  {
    hide Represents, MayBoot;
    var empty := map[64 := EMPTY_CTE, 96 := EMPTY_CTE];
    OwnCapMayBoot(Mdb([], 0, {}));
    FirstCap(empty, 96, OWN_CAP);
    assert empty[96 := Cte(OWN_CAP, 0, 0, true, true)] == OwnSlot(OWN_CAP);
    assert WriteSlot(Mdb([], 0, {}), 96, OWN_CAP).es == OwnLists().es;
  }

  lemma FirstCap(empty: Memory, s: nat, cap: Cap)
    requires 0 !in empty && s in empty && (forall t | t in empty :: empty[t] == EMPTY_CTE)
             && MayBoot(Mdb([], 0, {}), cap)
    ensures Represents(empty[s := Cte(cap, 0, 0, true, true)], WriteSlot(Mdb([], 0, {}), s, cap))
  {
    hide Represents, MayBoot, WriteSlot;
    EmptyMemory(empty);
    WritePreparation(empty, Mdb([], 0, {}), s, cap);
  }

  lemma OwnCapMayBoot(m: Mdb)
    requires m.es == []
    ensures MayBoot(m, OWN_CAP)
  {
    assert Pow2(6) == 64;
  }

  /**
   * Deleting that cap leaves a zombie: the end slot is the slot itself, so the zombie trades places with what is in
   * its first slot, and the slot that was to be emptied is empty. The object is not.
   */
  lemma OwnSlotLeavesZombie()
    ensures Remainder(OWN_CAP, true) == OWN_ZOMBIE && !CapRemovable(OWN_ZOMBIE, 96) && !CyclicZombie(OWN_ZOMBIE, 96)
    ensures EndSlot(OWN_ZOMBIE) == 96 && SetCap(OwnSlot(OWN_CAP), 96, OWN_ZOMBIE) == OwnSlot(OWN_ZOMBIE)
    ensures var swapped := SwapMemory(OwnSlot(OWN_ZOMBIE), Null, 64, OWN_ZOMBIE, 96);
            64 in swapped && 96 in swapped && swapped[96] == EMPTY_CTE && swapped[64].cap == OWN_ZOMBIE
  {
    assert Pow2(1) == 2;
    OwnSlotSwaps(OWN_ZOMBIE);
    hide SwapMemory;
  }

  lemma OwnSlotSwaps(z: Cap)
    ensures LinksIn(OwnSlot(z), 64) && LinksIn(OwnSlot(z), 96)
    ensures var swapped := SwapMemory(OwnSlot(z), Null, 64, z, 96);
            64 in swapped && 96 in swapped && swapped[96] == EMPTY_CTE && swapped[64].cap == z
  {
  }

  lemma OccupiedIsNonNull(mem: Memory, m: Mdb, k: nat)
    requires Represents(mem, m) && k < |m.es|
    ensures m.es[k].slot in mem && mem[m.es[k].slot] != EMPTY_CTE && !mem[m.es[k].slot].cap.Null?
  {
    hide Inv;
    OccupiedFacts(mem, m, k);
  }

  lemma OneIndex(mem: Memory, m: Mdb, i: nat, j: nat)
    requires Represents(mem, m) && i < |m.es| && j < |m.es|
    ensures m.es[i].slot == m.es[j].slot ==> i == j
  {
  }

  lemma CapOfEntry(mem: Memory, m: Mdb, k: nat)
    requires Represents(mem, m) && k < |m.es|
    ensures m.es[k].slot in mem && mem[m.es[k].slot].cap == m.es[k].cap
  {
    hide Inv;
    OccupiedFacts(mem, m, k);
  }

  lemma NextInMemory(mem: Memory, s: nat)
    requires NeighboursIn(mem, s)
    ensures s in mem && (mem[s].next != 0 ==> mem[s].next in mem)
  {
  }

  lemma RepresentedIds(mem: Memory, m: Mdb)
    requires Represents(mem, m)
    ensures Ids(m) && DistinctSlots(m.es)
  {
  }
}
