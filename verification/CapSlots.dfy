/**
 * The capability slots of a running system: cnode.c's operations on memory, each keeping memory and
 * derivation lists in step.
 */
module CapSlots {
  import opened Words
  import opened Arith
  import opened Caps
  import opened MdbList
  import opened MdbSteps
  import opened MdbOps
  import opened CSpace
  import opened CapObjects
  import opened Retype

  // ------------------------------------------------------- checks on slots, read from memory

  predicate MdbParentOf(a: Cte, b: Cte) {
    IsMdbParentOf(AsEntry(a), AsEntry(b))
  }

  function AsEntry(c: Cte): Entry {
    Entry(0, false, c.cap, c.revocable, c.firstBadged, 0, {}, Unbadged, Given(c.cap))
  }

  predicate FinalCapability(mem: Memory, s: nat)
    requires NeighboursIn(mem, s)
  {
    var c := mem[s];
    if c.prev != 0 && SameObjectAs(mem[c.prev].cap, c.cap) then false
    else c.next == 0 || !SameObjectAs(c.cap, mem[c.next].cap)
  }

  predicate NoChildren(mem: Memory, s: nat)
    requires NeighboursIn(mem, s)
  {
    mem[s].next == 0 || !MdbParentOf(mem[s], mem[mem[s].next])
  }

  ghost predicate Represents(mem: Memory, m: Mdb) {
    0 !in mem && Linked(mem, m.es) && Inv(m)
  }

  lemma OccupiedNeighbours(mem: Memory, m: Mdb, s: nat)
    requires Represents(mem, m) && s in mem && mem[s] != EMPTY_CTE
    ensures NeighboursIn(mem, s)
  {
    var k: nat :| Occupies(m.es, k, s);
    AllNonNull(m.es);
    hide Inv;
    HeldNeighbours(mem, m.es, k);
  }

  lemma InvOf(mem: Memory, m: Mdb)
    requires Represents(mem, m)
    ensures Inv(m)
  {
  }

  lemma AllNonNull(es: seq<Entry>)
    requires Entries(es)
    ensures EntriesNonNull(es)
  {
    forall i | 0 <= i < |es| ensures !es[i].cap.Null? { assert EntryOk(es[i]); }
  }

  /** The checks read from memory are the checks on the lists. */
  lemma ChecksAgree(mem: Memory, es: seq<Entry>, k: nat)
    requires HoldsAll(mem, es) && EntriesNonNull(es) && DistinctSlots(es) && k < |es| && NeighboursIn(mem, es[k].slot)
    ensures FinalCapability(mem, es[k].slot) <==> IsFinalAt(es, k)
    ensures NoChildren(mem, es[k].slot) <==> NoChildrenAt(es, k)
  {
    assert Holds(mem, es, k);
    if HasNext(es, k) { assert Holds(mem, es, k + 1); }
    if HasPrev(es, k) { assert Holds(mem, es, k - 1); }
    hide SameObjectAs, SameRegionAs;
  }

  predicate LoneSchedControlSlot(mem: Memory, s: nat)
    requires NeighboursIn(mem, s)
  {
    mem[s].cap.SchedControl? && mem[s].prev == 0 && (mem[s].next == 0 || !mem[mem[s].next].cap.SchedControl?)
  }

  /**
   * isFinalCapability inspects two neighbours, yet it is true exactly when no other slot in memory holds a cap
   * to the same object, or when the cap is the only sched control cap of its list.
   */
  lemma FinalCapabilityIsGlobal(mem: Memory, m: Mdb, s: nat)
    requires Represents(mem, m) && s in mem && mem[s] != EMPTY_CTE
    ensures NeighboursIn(mem, s)
    ensures FinalCapability(mem, s) <==>
            LoneSchedControlSlot(mem, s) || forall t | t in mem && t != s :: !SameObjectAs(mem[s].cap, mem[t].cap)
  {
    OccupiedNeighbours(mem, m, s);
    var k: nat :| Occupies(m.es, k, s);
    AllNonNull(m.es);
    ChecksAgree(mem, m.es, k);
    assert Holds(mem, m.es, k);
    assert m.es[0].head;
    LoneAgrees(mem, m.es, k);
    FinalMeansNoOtherCap(m, k);
    hide Inv, SameObjectAs, FinalCapability, IsFinalAt, LoneSchedControl, LoneSchedControlSlot;
    OtherSlotsAreOtherEntries(mem, m.es, k);
  }

  lemma LoneAgrees(mem: Memory, es: seq<Entry>, k: nat)
    requires Linked(mem, es) && k < |es| && es[0].head && NeighboursIn(mem, es[k].slot)
    ensures LoneSchedControlSlot(mem, es[k].slot) <==> LoneSchedControl(es, k)
  {
    assert Holds(mem, es, k);
    if HasNext(es, k) { assert Holds(mem, es, k + 1); }
    if HasPrev(es, k) { assert Holds(mem, es, k - 1); }
  }

  lemma OtherSlotsAreOtherEntries(mem: Memory, es: seq<Entry>, k: nat)
    requires Linked(mem, es) && k < |es| && Holds(mem, es, k)
    ensures (forall t | t in mem && t != es[k].slot :: !SameObjectAs(es[k].cap, mem[t].cap)) <==>
            (forall j | 0 <= j < |es| && j != k :: !SameObjectAs(es[k].cap, es[j].cap))
  {
    assert !SameObjectAs(es[k].cap, Null);
    hide SameObjectAs;
    if forall j | 0 <= j < |es| && j != k :: !SameObjectAs(es[k].cap, es[j].cap) {
      forall t | t in mem && t != es[k].slot ensures !SameObjectAs(es[k].cap, mem[t].cap) {
        if mem[t] != EMPTY_CTE {
          var j: nat :| Occupies(es, j, t);
          assert Holds(mem, es, j);
        }
      }
    }
    if forall t | t in mem && t != es[k].slot :: !SameObjectAs(es[k].cap, mem[t].cap) {
      forall j | 0 <= j < |es| && j != k ensures !SameObjectAs(es[k].cap, es[j].cap) {
        assert Holds(mem, es, j);
      }
    }
  }

  // --------------------------------------------------------------------- changing one cap

  function SetCap(mem: Memory, s: nat, c: Cap): Memory
    requires s in mem
  {
    mem[s := mem[s].(cap := c)]
  }

  lemma SetCapLinks(mem: Memory, es: seq<Entry>, k: nat, c: Cap)
    requires Linked(mem, es) && k < |es| && es[k].slot in mem && !c.Null? && mem[es[k].slot] != EMPTY_CTE
    ensures Linked(SetCap(mem, es[k].slot, c), WithCap(es, k, c))
  {
    var r, mem' := WithCap(es, k, c), SetCap(mem, es[k].slot, c);
    forall i: nat | i < |r| ensures Holds(mem', r, i) { assert Holds(mem, es, i); }
    forall s | s in mem' && mem'[s] != EMPTY_CTE ensures exists i: nat :: Occupies(r, i, s) {
      var i: nat :| Occupies(es, i, s);
      assert Occupies(r, i, s);
    }
  }

  // ------------------------------------------------------------------------ the operations

  /** The cleanup that finaliseCap asks for: releasing the interrupt of the last handler cap. */
  function CleanupInfo(c: Cap, final: bool): Cap {
    if c.IrqHandler? && final then c else Null
  }

  datatype Status = Done | Preempted

  /** preemptionPoint: the model may stop anywhere it is called. */
  method PreemptionPoint() returns (status: Status)
  {
    var b: bool := *;
    status := if b then Preempted else Done;
  }

  class Slots {
    var mem: Memory
    /** Interrupts whose state is not IRQInactive. */
    var irqs: set<nat>
    ghost var mdb: Mdb

    ghost predicate Valid()
      reads this
    {
      Represents(mem, mdb) && irqs == mdb.irqs
    }

    /** Memory with the given slots, all empty. */
    constructor (slots: set<nat>)
      requires 0 !in slots
      ensures Valid() && mem.Keys == slots && mdb == Mdb([], 0, {}) && AllBacked(mem) && Housed(mem)
    {
      mem := map s | s in slots :: EMPTY_CTE;
      irqs := {};
      mdb := Mdb([], 0, {});
      EmptyMemory(map s | s in slots :: EMPTY_CTE);
      hide Represents;
    }

    /** write_slot */
    method WriteBootCap(s: nat, cap: Cap)
      requires Valid() && s in mem && mem[s] == EMPTY_CTE && MayBoot(mdb, cap)
      modifies this
      ensures Valid() && mem.Keys == old(mem.Keys) && mdb == WriteSlot(old(mdb), s, cap)
      ensures AllBacked(old(mem)) && Backed(old(mem), cap) && MayHold(s, cap) ==> AllBacked(mem)
      ensures Housed(old(mem)) && (Named(old(mem), s) || Names(cap, s)) ==> Housed(mem)
    {
      hide Represents, WriteSlot, MayBoot, AllBacked, Backed, Housed, Named, Names;
      WritePreparation(mem, mdb, s, cap);
      mem := mem[s := Cte(cap, 0, 0, true, true)];
      mdb := WriteSlot(mdb, s, cap);
      AddedFacts(old(mem), mem, s, cap);
    }

    /** cteInsert */
    method InsertCap(newCap: Cap, src: nat, dest: nat, ghost k: nat)
      requires Valid() && Occupies(mdb.es, k, src) && dest in mem && mem[dest] == EMPTY_CTE
      requires MayInsert(mdb, k, newCap)
      modifies this
      ensures Valid() && mem.Keys == old(mem.Keys) && mdb == CteInsert(old(mdb), k, dest, newCap)
      ensures AllBacked(old(mem)) && MayHold(dest, newCap) && (newCap.IrqHandler? ==> Backed(old(mem), newCap)) ==>
                AllBacked(mem)
      ensures Housed(old(mem)) && Named(old(mem), dest) ==> Housed(mem)
      ensures src in old(mem) && mem[src].cap == SourceAfterInsert(old(mem[src].cap), newCap) && mem[dest].cap == newCap
      ensures forall x | x in mem && x != src && x != dest :: mem[x].cap == old(mem[x].cap)
    {
      hide AllBacked, Backed, Housed, Named, Names, Alike, MayHold;
      hide Represents, CteInsert, MayInsert, SourceAfterInsert, IsCapRevocable;
      ghost var m := mdb;
      InsertPreparation(mem, m, k, dest, newCap);
      var srcNode := mem[src];
      var revocable := IsCapRevocable(newCap, srcNode.cap);
      mem := SetCap(mem, src, SourceAfterInsert(srcNode.cap, newCap));
      var next := mem[src].next;
      mem := mem[dest := Cte(newCap, next, src, revocable, revocable)];
      mem := mem[src := mem[src].(next := dest)];
      if next != 0 {
        mem := mem[next := mem[next].(prev := dest)];
      }
      if srcNode.cap.IrqControl? && newCap.IrqHandler? {
        irqs := irqs + {newCap.irq};
      }
      mdb := CteInsert(m, k, dest, newCap);
      InsertedIsAdded(old(mem), m, mem, k, src, dest, newCap);
    }

    /** insertNewCap */
    method InsertNew(parent: nat, s: nat, cap: Cap, ghost k: nat)
      requires Valid() && Occupies(mdb.es, k, parent) && s in mem && mem[s] == EMPTY_CTE
      requires mdb.es[k].cap.Untyped? && IsNewObject(cap) && WellFormed(cap) && UnusedIn(mdb.es, k, cap)
      modifies this
      ensures Valid() && mem.Keys == old(mem.Keys) && mdb == InsertNewCap(old(mdb), k, s, cap)
      ensures Added(old(mem), mem, s, cap) && mem[s].cap == cap
      ensures forall x | x in mem && x != s :: mem[x].cap == old(mem[x].cap)
      ensures forall x | x in mem && x != s && old(mem[x]) == EMPTY_CTE :: mem[x] == EMPTY_CTE
    {
      hide Represents, InsertNewCap, UnusedIn, WellFormed, IsNewObject;
      ghost var m0, m := mem, mdb;
      NewPreparation(mem, m, k, s, cap);
      var next := mem[parent].next;
      mem := mem[s := Cte(cap, next, parent, true, true)];
      if next != 0 {
        mem := mem[next := mem[next].(prev := s)];
      }
      mem := mem[parent := mem[parent].(next := s)];
      assert mem == LinkAfter(m0, parent, s, cap, true, true);
      CapsAreAlike(m0, mem, s);
      mdb := InsertNewCap(m, k, s, cap);
    }

    /** createNewObjects: fill the destination slots with caps to consecutive new objects. */
    method CreateObjects(parent: nat, dest: seq<nat>, t: ObjectType, userSize: nat, base: nat, ghost k: nat)
      requires Valid() && Occupies(mdb.es, k, parent) && FreeDestinations(mem, dest) && mdb.es[k].cap.Untyped?
      requires LargeEnough(t, userSize) && base % Pow2(ObjectSizeBits(t, userSize)) == 0
      requires mdb.es[k].cap.ptr <= base && DerivedBelow(mdb.es, k, base)
      requires var top := base + |dest| * Pow2(ObjectSizeBits(t, userSize));
               top <= WORD && top <= mdb.es[k].cap.ptr + FreeOffset(mdb.es[k].cap)
      modifies this
      ensures Valid() && mem.Keys == old(mem.Keys)
      ensures mdb == CreateNewObjects(old(mdb), k, dest, NewCaps(t, userSize, base, |dest|))
      ensures Placed(old(mem), mem, dest, NewCaps(t, userSize, base, |dest|), |dest|)
      ensures KeptSoFar(old(mem), mem, dest, NewCaps(t, userSize, base, |dest|), [], [])
    {
      hide Progress, Added, Placed, KeptSoFar;
      hide Represents, DerivedBelow, UnusedIn, WellFormed, IsNewObject, InsertNewCap, CreateObject, NewCaps;
      hide ObjectSizeBits, LargeEnough, ObjectEnd, ObjectBase, FreeDestinations, CreateNewObjects;
      var size := Pow2(ObjectSizeBits(t, userSize));
      var next, i := base, 0;
      ghost var u, caps := mdb.es[k], NewCaps(t, userSize, base, |dest|);
      ProgressStarts(mem, dest, caps);
      assert dest[0..] == dest && caps[0..] == caps;
      while i < |dest|
        invariant i <= |dest| && Valid() && mem.Keys == old(mem.Keys) && k < |mdb.es| && mdb.es[k] == u
        invariant base <= next && next % size == 0 && next + (|dest| - i) * size == base + |dest| * size
        invariant DerivedBelow(mdb.es, k, next)
        invariant Progress(old(mem), mem, dest, caps, i) && caps[i..] == NewCaps(t, userSize, next, |dest| - i)
        invariant CreateNewObjects(mdb, k, dest[i..], caps[i..]) == CreateNewObjects(old(mdb), k, dest, caps)
      {
        MulSum(|dest| - i - 1, 1, size);
        MulNonNegative(|dest| - i - 1, size);
        AlignedObject(t, userSize, next);
        var cap := CreateObject(t, next, userSize);
        ghost var rest := NewCaps(t, userSize, next + size, |dest| - i - 1);
        FirstOfNewCaps(t, userSize, next, |dest| - i);
        NextCap(caps, i, cap, rest);
        ProgressFree(old(mem), mem, dest, caps, i);
        PlaceOne(mem, mdb, k, dest[i..], cap, rest);
        ghost var m0 := mem;
        InsertNew(parent, dest[i], cap, k);
        ProgressOne(old(mem), m0, mem, dest, caps, i);
        assert dest[i..][1..] == dest[i + 1..];
        next, i := next + size, i + 1;
      }
      ProgressEnds(old(mem), mem, old(mdb), mdb, k, dest, caps);
    }

    /** The free index moves to the end of the new objects, before they are made. */
    method MoveFreeIndex(parent: nat, free: nat, base: nat, dest: seq<nat>, ghost k: nat)
      requires Valid() && Occupies(mdb.es, k, parent) && mdb.es[k].cap.Untyped? && FreeDestinations(mem, dest)
      requires var u := mdb.es[k].cap;
               && u.ptr + StartOffset(NoChildrenAt(mdb.es, k), u) <= base <= u.ptr + free * 16
               && free * 16 <= Pow2(u.bits)
      modifies this`mem, this`mdb
      ensures Valid() && mdb == old(mdb).(es := WithCap(old(mdb).es, k, SetFree(old(mdb).es[k].cap, free)))
      ensures DerivedBelow(mdb.es, k, base) && FreeDestinations(mem, dest) && mem.Keys == old(mem.Keys)
      ensures parent in mem && old(mem[parent].cap.Untyped?)
      ensures mem == old(mem)[parent := old(mem[parent]).(cap := SetFree(old(mem[parent].cap), free))]
    {
      hide Represents, DerivedBelow, NoChildrenAt, FreeDestinations, Pow2;
      RetypeFacts(mem, mdb, k);
      AdvanceFree(mem, mdb, k, free, base, dest);
      var u := mem[parent].cap;
      mem := mem[parent := mem[parent].(cap := SetFree(u, free))];
      mdb := mdb.(es := WithCap(mdb.es, k, SetFree(u, free)));
    }

    /** invokeUntyped_Retype, once a reset that was due is over: the objects and their caps are made. */
    method PlaceObjects(parent: nat, dest: seq<nat>, t: ObjectType, userSize: nat, base: nat, ghost k: nat)
      requires Valid() && Occupies(mdb.es, k, parent) && mdb.es[k].cap.Untyped? && FreeDestinations(mem, dest)
      requires |dest| >= 1 && LargeEnough(t, userSize) && FreeOffset(mdb.es[k].cap) <= Pow2(mdb.es[k].cap.bits)
      requires DecodeRetype(NoChildrenAt(mdb.es, k), mdb.es[k].cap, ObjectSizeBits(t, userSize), |dest|) == Place(base)
      modifies this
      ensures var top := base + |dest| * Pow2(ObjectSizeBits(t, userSize));
              && Valid() && mem.Keys == old(mem.Keys) && top <= WORD && old(mdb).es[k].cap.ptr <= top
              && mdb == RetypeUntyped(old(mdb), k, dest, NewCaps(t, userSize, base, |dest|), top)
              && KeptSoFar(old(mem), mem, dest, NewCaps(t, userSize, base, |dest|), [], [])
              && HoldNew(mem, dest, t, userSize, base)
              && (forall x | x in mem && x !in dest && x != parent :: mem[x].cap == old(mem[x].cap))
    {
      hide KeptSoFar, HoldNew;
      hide Represents, DerivedBelow, WellFormed, LargeEnough, DecodeRetype, Ascending, NoChildrenAt, FreeDestinations;
      hide ObjectSizeBits, Pow2, NewCaps, CreateNewObjects, NoChildren;
      RetypeFacts(mem, mdb, k);
      var u := mem[parent].cap;
      DecodedRetype(NoChildren(mem, parent), u, t, userSize, |dest|, base);
      var top := base + |dest| * Pow2(ObjectSizeBits(t, userSize));
      MoveFreeIndex(parent, (top - u.ptr) / 16, base, dest, k);
      ghost var m1 := mem;
      CreateObjects(parent, dest, t, userSize, base, k);
      UntypedChangesNothing(old(mem), m1, mem, parent, dest, NewCaps(t, userSize, base, |dest|));
      PlacedAsAsked(m1, mem, dest, t, userSize, base);
    }

    /** The slots that `node` names as its neighbours are made to point to `to`. */
    method RedirectNeighbours(node: Cte, to: nat)
      requires NodeLinksIn(mem, node)
      modifies this`mem
      ensures mem == Relink(old(mem), node, to) && mem.Keys == old(mem.Keys)
      ensures forall x | x in mem ::
                mem[x].next in {old(mem[x].next), to} && mem[x].prev in {old(mem[x].prev), to}
    {
      if node.prev != 0 {
        mem := mem[node.prev := mem[node.prev].(next := to)];
      }
      if node.next != 0 {
        mem := mem[node.next := mem[node.next].(prev := to)];
      }
    }

    /** cteSwap; a slot may be empty, in which case its new cap is the null cap. */
    method Swap(cap1: Cap, s1: nat, cap2: Cap, s2: nat)
      requires Valid() && s1 in mem && s2 in mem && s1 != s2
      requires IsRelabelling(mem[s1].cap, cap1) && IsRelabelling(mem[s2].cap, cap2)
      modifies this
      ensures Valid() && mem.Keys == old(mem.Keys)
      ensures mdb == old(mdb).(es := SwapEntries(old(mdb).es, cap1, s1, cap2, s2))
      ensures mem[s2].cap == cap1 && mem[s1].cap == cap2
      ensures forall x | x in mem && x != s1 && x != s2 :: mem[x].cap == old(mem[x].cap)
      ensures AllBacked(old(mem)) && MayHold(s2, cap1) && MayHold(s1, cap2) ==> AllBacked(mem)
      ensures Housed(old(mem)) && Named(old(mem), s1) && Named(old(mem), s2) ==> Housed(mem)
    {
      hide AllBacked, Housed, Named, MayHold;
      hide Represents, SwapEntries, Relink, IsRelabelling;
      ghost var m0, m := mem, mdb;
      SwapPreparation(m0, m, cap1, s1, cap2, s2);
      mem := mem[s1 := mem[s1].(cap := cap2)];
      mem := mem[s2 := mem[s2].(cap := cap1)];
      var mdb1 := mem[s1];
      RedirectNeighbours(mdb1, s2);
      var mdb2 := mem[s2];
      mem := mem[s1 := mdb2.(cap := mem[s1].cap)];
      mem := mem[s2 := mdb1.(cap := mem[s2].cap)];
      RedirectNeighbours(mdb2, s1);
      assert mem == SwapMemory(m0, cap1, s1, cap2, s2);
      hide SwapMemory, Mirrored;
      SwapKeeps(m0, mem, cap1, s1, cap2, s2);
      mdb := m.(es := SwapEntries(m.es, cap1, s1, cap2, s2));
    }

    /** cteMove */
    method Move(cap: Cap, src: nat, dest: nat)
      requires Valid() && src in mem && mem[src] != EMPTY_CTE && dest in mem && mem[dest] == EMPTY_CTE
      requires IsRelabelling(mem[src].cap, cap)
      modifies this
      ensures Valid() && mem.Keys == old(mem.Keys)
      ensures mdb == old(mdb).(es := SwapEntries(old(mdb).es, cap, src, Null, dest))
      ensures mem[src] == EMPTY_CTE && mem[dest].cap == cap
      ensures forall x | x in mem && x != src && x != dest :: mem[x].cap == old(mem[x].cap)
      ensures AllBacked(old(mem)) && MayHold(dest, cap) ==> AllBacked(mem)
      ensures Housed(old(mem)) && Named(old(mem), dest) ==> Housed(mem)
    {
      hide AllBacked, Housed, Named;
      hide Represents, SwapEntries;
      ghost var m0, m := mem, mdb;
      SwapPreparation(m0, m, cap, src, Null, dest);
      MoveIsSwap(m0, cap, src, dest);
      var node := mem[src];
      mem := mem[dest := node.(cap := cap)];
      mem := mem[src := EMPTY_CTE];
      RedirectNeighbours(node, dest);
      assert mem == MoveMemory(m0, cap, src, dest);
      SwapKeeps(m0, mem, cap, src, Null, dest);
      mdb := m.(es := SwapEntries(m.es, cap, src, Null, dest));
    }

    /** emptySlot: nothing happens to an empty slot; a cap leaves the lists. */
    method Empty(s: nat, cleanup: Cap, ghost k: nat)
      requires Valid() && s in mem
      requires mem[s] != EMPTY_CTE ==> Occupies(mdb.es, k, s) && NeighboursIn(mem, s)
                                       && cleanup == CleanupInfo(mem[s].cap, FinalCapability(mem, s))
      modifies this
      ensures Valid() && mem.Keys == old(mem.Keys)
      ensures mdb == if old(mem[s]) == EMPTY_CTE then old(mdb) else Removed(old(mdb), k)
      ensures mem[s] == EMPTY_CTE && forall x | x in mem && x != s :: mem[x].cap == old(mem[x].cap)
      ensures AllBacked(old(mem)) ==> AllBacked(mem)
      ensures Housed(old(mem)) && Dispensable(old(mem), s) ==> Housed(mem)
    {
      hide AllBacked, Housed, Dispensable;
      hide Represents, Removed, FinalCapability;
      if mem[s] == EMPTY_CTE { return; }
      ghost var m0, m := mem, mdb;
      EmptyPreparation(m0, m, k);
      var prev, next, fb := mem[s].prev, mem[s].next, mem[s].firstBadged;
      if prev != 0 {
        mem := mem[prev := mem[prev].(next := next)];
      }
      if next != 0 {
        mem := mem[next := mem[next].(prev := prev)];
      }
      if next != 0 {
        mem := mem[next := mem[next].(firstBadged := mem[next].firstBadged || fb)];
      }
      mem := mem[s := EMPTY_CTE];
      assert mem == Unlink(m0, s);
      UnlinkCaps(m0, s);
      hide Unlink;
      RemovalKeeps(m0, mem, s);
      if cleanup.IrqHandler? {
        irqs := irqs - {cleanup.irq};
      }
      mdb := Removed(m, k);
    }

    /** The assignment slot->cap = remainder in finaliseSlot, and the count-down in reduceZombie. */
    method BecomeZombie(s: nat, z: Cap, ghost k: nat)
      requires Valid() && Occupies(mdb.es, k, s) && s in mem && NeighboursIn(mem, s)
      requires FinalCapability(mem, s) && IsZombieOf(mem[s].cap, z)
      modifies this
      ensures Valid() && mem == SetCap(old(mem), s, z) && mdb == old(mdb).(es := WithCap(old(mdb).es, k, z))
    {
      hide Represents, FinalCapability, IsZombieOf;
      ZombiePreparation(mem, mdb, k, z);
      mem := mem[s := mem[s].(cap := z)];
      mdb := mdb.(es := WithCap(mdb.es, k, z));
    }
  }

  lemma CapsAreAlike(m0: Memory, mem: Memory, s: nat)
    requires s in m0 && m0[s].cap.Null? && mem.Keys == m0.Keys
    requires forall x | x in mem && x != s :: mem[x].cap == m0[x].cap
    ensures Added(m0, mem, s, mem[s].cap)
  {
  }

  /** What a derivation of the source cap stands for, the source stands for too. */
  lemma InsertedIsAdded(m0: Memory, m: Mdb, mem: Memory, k: nat, src: nat, dest: nat, newCap: Cap)
    requires k < |m.es| && MayInsert(m, k, newCap) && src in m0 && dest in m0 && src != dest
    requires m0[src].cap == m.es[k].cap && m0[dest].cap.Null? && mem.Keys == m0.Keys && mem[dest].cap == newCap
    requires mem[src].cap == SourceAfterInsert(m0[src].cap, newCap)
    requires forall x | x in mem && x != src && x != dest :: mem[x].cap == m0[x].cap
    ensures AllBacked(m0) && MayHold(dest, newCap) && (newCap.IrqHandler? ==> Backed(m0, newCap)) ==> AllBacked(mem)
    ensures Housed(m0) && Named(m0, dest) ==> Housed(mem)
  {
    hide AllBacked, Housed, Named, Names, MayHold;
    AddedFacts(m0, mem, dest, newCap);
    if AllBacked(m0) && !newCap.IrqHandler? {
      BackedAt(m0, src);
      BackedAlike(m0, m0[src].cap, newCap);
    }
  }

  /** The slots of all these caps are among the given ones. */
  predicate AllFit(keys: set<nat>, caps: seq<Cap>) {
    forall c, i: nat | c in caps && i < Capacity(c) :: SlotAt(c, i) in keys
  }

  /** None of these slots is one of the interrupt node. */
  predicate Ordinary(slots: seq<nat>) {
    forall x | x in slots :: x < WORD
  }

  predicate AllNamed(mem: Memory, slots: seq<nat>) {
    forall x | x in slots :: Named(mem, x)
  }

  /** If m0 is in order and has room for the caps, then so is mem, which has yet to receive the caps of rest. */
  predicate KeptSoFar(m0: Memory, mem: Memory, dest: seq<nat>, caps: seq<Cap>, left: seq<nat>, rest: seq<Cap>) {
    && (AllBacked(m0) && AllFit(m0.Keys, caps) && Ordinary(dest) ==>
          AllBacked(mem) && AllFit(mem.Keys, rest) && Ordinary(left))
    && (Housed(m0) && AllNamed(m0, dest) ==> Housed(mem) && AllNamed(mem, left))
  }

  predicate Distinct(dest: seq<nat>) {
    forall i, j | 0 <= i < j < |dest| :: dest[i] != dest[j]
  }

  /** The first n destinations hold their caps, and every other slot the cap it had. */
  predicate Placed(m0: Memory, mem: Memory, dest: seq<nat>, caps: seq<Cap>, n: nat) {
    && mem.Keys == m0.Keys && n <= |dest| == |caps|
    && (forall i | 0 <= i < n :: dest[i] in mem && mem[dest[i]].cap == caps[i])
    && (forall x | x in mem && x !in dest[..n] :: mem[x].cap == m0[x].cap)
  }

  /** The i-th destination holds a cap to the i-th object, of the type and size asked for. */
  predicate HoldNew(mem: Memory, dest: seq<nat>, t: ObjectType, userSize: nat, base: nat) {
    forall i | 0 <= i < |dest| ::
      dest[i] in mem && NamesNew(mem[dest[i]].cap, t, userSize, base + i * Pow2(ObjectSizeBits(t, userSize)))
  }

  lemma PlacedAsAsked(m0: Memory, mem: Memory, dest: seq<nat>, t: ObjectType, userSize: nat, base: nat)
    requires base + |dest| * Pow2(ObjectSizeBits(t, userSize)) <= WORD && base % Pow2(ObjectSizeBits(t, userSize)) == 0
    requires Placed(m0, mem, dest, NewCaps(t, userSize, base, |dest|), |dest|)
    ensures HoldNew(mem, dest, t, userSize, base)
    ensures forall x | x in mem && x !in dest :: mem[x].cap == m0[x].cap
  {
    hide NamesNew, NewCaps, ObjectSizeBits, Pow2;
    assert dest[..|dest|] == dest;
    forall i | 0 <= i < |dest|
      ensures dest[i] in mem && NamesNew(mem[dest[i]].cap, t, userSize, base + i * Pow2(ObjectSizeBits(t, userSize)))
    {
      NewCapsAsAsked(t, userSize, base, |dest|, i);
    }
  }

  lemma PlacedOneMore(m0: Memory, m1: Memory, mem: Memory, dest: seq<nat>, caps: seq<Cap>, n: nat)
    requires Placed(m0, m1, dest, caps, n) && n < |dest| && mem.Keys == m1.Keys && dest[n] in mem
    requires mem[dest[n]].cap == caps[n] && forall x | x in mem && x != dest[n] :: mem[x].cap == m1[x].cap
    requires Distinct(dest)
    ensures Placed(m0, mem, dest, caps, n + 1)
  {
    assert dest[..n + 1] == dest[..n] + [dest[n]];
  }

  lemma NextCap(caps: seq<Cap>, i: nat, cap: Cap, rest: seq<Cap>)
    requires i < |caps| && caps[i..] == [cap] + rest
    ensures caps[i] == cap && caps[i + 1..] == rest
  {
    assert caps[i] == caps[i..][0];
    assert caps[i + 1..] == caps[i..][1..];
  }

  /** The first n caps are in their places, and there is room for the others. */
  predicate Progress(m0: Memory, mem: Memory, dest: seq<nat>, caps: seq<Cap>, n: nat) {
    && n <= |dest| == |caps| && Distinct(dest) && Placed(m0, mem, dest, caps, n) && FreeDestinations(mem, dest[n..])
    && KeptSoFar(m0, mem, dest, caps, dest[n..], caps[n..])
  }

  lemma ProgressStarts(mem: Memory, dest: seq<nat>, caps: seq<Cap>)
    requires |dest| == |caps| && FreeDestinations(mem, dest)
    ensures Progress(mem, mem, dest, caps, 0)
  {
    assert dest[0..] == dest && caps[0..] == caps;
  }

  lemma ProgressFree(m0: Memory, mem: Memory, dest: seq<nat>, caps: seq<Cap>, n: nat)
    requires Progress(m0, mem, dest, caps, n)
    ensures FreeDestinations(mem, dest[n..])
  {
  }

  lemma ProgressOne(m0: Memory, m1: Memory, mem: Memory, dest: seq<nat>, caps: seq<Cap>, n: nat)
    requires Progress(m0, m1, dest, caps, n) && n < |dest| && Added(m1, mem, dest[n], caps[n]) && !caps[n].Zombie?
    requires mem.Keys == m1.Keys && forall x | x in mem && x != dest[n] :: mem[x].cap == m1[x].cap
    requires forall x | x in mem && x != dest[n] && m1[x] == EMPTY_CTE :: mem[x] == EMPTY_CTE
    ensures Progress(m0, mem, dest, caps, n + 1)
  {
    hide FreeDestinations, KeptSoFar, Distinct, Placed;
    PlacedOneMore(m0, m1, mem, dest, caps, n);
    StillFree(m1, mem, dest[n..]);
    assert dest[n..][1..] == dest[n + 1..] && caps[n..] == [caps[n]] + caps[n + 1..];
    OneMore(m0, m1, mem, dest, caps, dest[n..], caps[n], caps[n + 1..]);
  }

  lemma ProgressEnds(m0: Memory, mem: Memory, d0: Mdb, d: Mdb, k: nat, dest: seq<nat>, caps: seq<Cap>)
    requires Progress(m0, mem, dest, caps, |dest|) && k < |d0.es| && k < |d.es|
    requires CreateNewObjects(d, k, dest[|dest|..], caps[|dest|..]) == CreateNewObjects(d0, k, dest, caps)
    ensures Placed(m0, mem, dest, caps, |dest|) && KeptSoFar(m0, mem, dest, caps, [], [])
    ensures d == CreateNewObjects(d0, k, dest, caps)
  {
    hide Placed, KeptSoFar, FreeDestinations;
    assert dest[|dest|..] == [] && caps[|dest|..] == [];
  }

  lemma OneMore(m0: Memory, m1: Memory, mem: Memory, dest: seq<nat>, caps: seq<Cap>,
                left: seq<nat>, cap: Cap, rest: seq<Cap>)
    requires left != [] && Added(m1, mem, left[0], cap) && !cap.Zombie?
    requires KeptSoFar(m0, m1, dest, caps, left, [cap] + rest)
    ensures KeptSoFar(m0, mem, dest, caps, left[1..], rest)
  {
    AddedFacts(m1, mem, left[0], cap);
    hide AllBacked, Housed, Named, Names, Capacity, SlotAt;
    assert cap in [cap] + rest && forall c | c in rest :: c in [cap] + rest;
    assert left[0] in left && forall x | x in left[1..] :: x in left;
  }

  lemma EmptyMemory(mem: Memory)
    requires 0 !in mem && forall s | s in mem :: mem[s] == EMPTY_CTE
    ensures Represents(mem, Mdb([], 0, {}))
  {
  }

  lemma RetypeFacts(mem: Memory, m: Mdb, k: nat)
    requires Represents(mem, m) && k < |m.es| && m.es[k].cap.Untyped?
    ensures NeighboursIn(mem, m.es[k].slot) && mem[m.es[k].slot].cap == m.es[k].cap
    ensures NoChildren(mem, m.es[k].slot) <==> NoChildrenAt(m.es, k)
    ensures WellFormed(m.es[k].cap) && m.es[k].cap.ptr % 16 == 0 && FreeOffset(m.es[k].cap) <= Pow2(m.es[k].cap.bits)
  {
    hide Inv;
    OccupiedFacts(mem, m, k);
    ChecksAgree(mem, m.es, k);
  }

  lemma AdvanceFree(mem: Memory, m: Mdb, k: nat, free: nat, base: nat, dest: seq<nat>)
    requires k < |m.es| && m.es[k].cap.Untyped? && FreeDestinations(mem, dest)
    requires m.es[k].cap.ptr + StartOffset(NoChildrenAt(m.es, k), m.es[k].cap) <= base <= m.es[k].cap.ptr + free * 16
    requires free * 16 <= Pow2(m.es[k].cap.bits) && m.es[k].slot in mem
    requires Represents(mem, m)
    ensures var c := SetFree(m.es[k].cap, free);
            var mem', es' := mem[m.es[k].slot := mem[m.es[k].slot].(cap := c)], WithCap(m.es, k, c);
            Represents(mem', m.(es := es')) && DerivedBelow(es', k, base) && FreeDestinations(mem', dest)
  {
    hide Inv;
    OccupiedFacts(mem, m, k);
    hide EntryOk;
    PlacementIsUnused(m, k, base);
    SetFreeBelow(m.es, k, free, base);
    hide FreeAbove;
    SetFreeKeepsInv(m, k, free);
    SetCapLinks(mem, m.es, k, SetFree(m.es[k].cap, free));
    forall i | 0 <= i < |dest| ensures dest[i] != m.es[k].slot { assert mem[dest[i]] == EMPTY_CTE; }
  }

  lemma UntypedChangesNothing(m0: Memory, m1: Memory, mem: Memory, s: nat, dest: seq<nat>, caps: seq<Cap>)
    requires m1.Keys == m0.Keys && s in m1 && m0[s].cap.Untyped? && m1[s].cap.Untyped?
    requires forall x | x in m1 && x != s :: m1[x].cap == m0[x].cap
    requires KeptSoFar(m1, mem, dest, caps, [], [])
    ensures KeptSoFar(m0, mem, dest, caps, [], [])
  {
    if AllBacked(m0) {
      forall x | x in m1 ensures Backed(m0, m1[x].cap) { BackedAt(m0, x); }
      BackedAfter(m0, m1);
    }
    assert forall t | t in m0 :: Covers(m1[t].cap, m0[t].cap);
    hide Names, Covers, AllBacked;
    forall x | Named(m0, x) ensures Named(m1, x) { NamedKept(m0, m1, x); }
  }

  predicate FreeDestinations(mem: Memory, dest: seq<nat>) {
    (forall i | 0 <= i < |dest| :: dest[i] in mem && mem[dest[i]] == EMPTY_CTE) && Distinct(dest)
  }

  lemma StillFree(m0: Memory, mem: Memory, dest: seq<nat>)
    requires dest != [] && FreeDestinations(m0, dest) && mem.Keys == m0.Keys
    requires forall x | x in m0 && x != dest[0] && m0[x] == EMPTY_CTE :: mem[x] == EMPTY_CTE
    ensures FreeDestinations(mem, dest[1..])
  {
    forall i | 0 <= i < |dest| - 1 ensures dest[1..][i] in mem && mem[dest[1..][i]] == EMPTY_CTE {
      assert dest[1..][i] == dest[i + 1];
    }
  }

  /** One round of createNewObjects: the next cap may be inserted, and the rest of the work is what remains. */
  lemma PlaceOne(mem: Memory, m: Mdb, k: nat, dest: seq<nat>, cap: Cap, rest: seq<Cap>)
    requires Represents(mem, m) && k < |m.es| && m.es[k].cap.Untyped? && FreeDestinations(mem, dest)
    requires |dest| == 1 + |rest| && IsNewObject(cap) && WellFormed(cap)
    requires DerivedBelow(m.es, k, ObjectBase(cap)) && m.es[k].cap.ptr <= ObjectBase(cap)
    requires ObjectEnd(cap) <= m.es[k].cap.ptr + FreeOffset(m.es[k].cap)
    ensures dest[0] in mem && mem[dest[0]] == EMPTY_CTE && UnusedIn(m.es, k, cap)
    ensures var r := InsertNewCap(m, k, dest[0], cap);
            && |r.es| == |m.es| + 1 && r.es[k] == m.es[k] && DerivedBelow(r.es, k, ObjectEnd(cap))
            && CreateNewObjects(m, k, dest, [cap] + rest) == CreateNewObjects(r, k, dest[1..], rest)
  {
    assert Inv(m);
    hide Inv, Linked;
    BelowIsUnused(m.es, k, cap);
    CreateOneKeepsInv(m, k, dest[0], cap);
    assert ([cap] + rest)[1..] == rest;
  }

  lemma NewNeighbours(mem: Memory, m: Mdb, k: nat)
    requires Represents(mem, m) && k < |m.es|
    ensures m.es[k].slot in mem && NeighboursIn(mem, m.es[k].slot) && mem[m.es[k].slot].next != m.es[k].slot
  {
    hide Inv, Linked;
    OccupiedFacts(mem, m, k);
    LinkedIsMirrored(mem, m.es, m.es[k].slot);
  }

  lemma NewPreparation(mem: Memory, m: Mdb, k: nat, s: nat, cap: Cap)
    requires k < |m.es| && s in mem && mem[s] == EMPTY_CTE
    requires m.es[k].cap.Untyped? && IsNewObject(cap) && WellFormed(cap) && UnusedIn(m.es, k, cap)
    requires Represents(mem, m)
    ensures NeighboursIn(mem, m.es[k].slot) && mem[m.es[k].slot].next != m.es[k].slot
    ensures Represents(LinkAfter(mem, m.es[k].slot, s, cap, true, true), InsertNewCap(m, k, s, cap))
    ensures InsertNewCap(m, k, s, cap).irqs == m.irqs
  {
    assert !cap.Null? && !cap.IrqHandler?;
    hide Inv, Linked, EntryOk, UnusedIn, WellFormed, IsNewObject, NeighboursIn;
    NewNeighbours(mem, m, k);
    OccupiedFacts(mem, m, k);
    InsertNewCapKeepsInv(m, k, s, cap);
    LinkAfterLinks(mem, m.es, k, NewEntry(m, k, s, cap));
  }

  lemma SwapEntryRelabels(e: Entry, cap1: Cap, s1: nat, cap2: Cap, s2: nat)
    requires e.slot == s1 ==> IsRelabelling(e.cap, cap1)
    requires e.slot == s2 ==> IsRelabelling(e.cap, cap2)
    ensures var r := SwapEntry(e, cap1, s1, cap2, s2);
            IsRelabelling(e.cap, r.cap) && r == e.(slot := r.slot, cap := r.cap)
  {
  }

  lemma SwapRenames(mem: Memory, es: seq<Entry>, cap1: Cap, s1: nat, cap2: Cap, s2: nat)
    requires s1 in mem && s2 in mem && IsRelabelling(mem[s1].cap, cap1) && IsRelabelling(mem[s2].cap, cap2)
    requires HoldsAll(mem, es)
    ensures IsRenaming(es, SwapEntries(es, cap1, s1, cap2, s2))
  {
    var r := SwapEntries(es, cap1, s1, cap2, s2);
    hide SwapEntries, IsRelabelling, SwapEntry;
    forall i | 0 <= i < |es|
      ensures IsRelabelling(es[i].cap, r[i].cap) && r[i] == es[i].(slot := r[i].slot, cap := r[i].cap)
    {
      assert Holds(mem, es, i);
      SwapEntryRelabels(es[i], cap1, s1, cap2, s2);
    }
  }

  lemma SwapMemoryCaps(mem: Memory, es: seq<Entry>, cap1: Cap, s1: nat, cap2: Cap, s2: nat)
    requires Linked(mem, es) && 0 !in mem && s1 in mem && s2 in mem && s1 != s2
    requires LinksIn(mem, s1) && LinksIn(mem, s2)
    ensures var mem' := SwapMemory(mem, cap1, s1, cap2, s2);
            && mem'.Keys == mem.Keys && mem'[s2].cap == cap1 && mem'[s1].cap == cap2
            && forall x | x in mem && x != s1 && x != s2 :: mem'[x].cap == mem[x].cap
  {
    hide Linked, SwapMemory;
    SwappedAt(mem, es, cap1, s1, cap2, s2, s1);
    SwappedAt(mem, es, cap1, s1, cap2, s2, s2);
    forall x | x in mem && x != s1 && x != s2
      ensures SwapMemory(mem, cap1, s1, cap2, s2)[x].cap == mem[x].cap
    {
      SwappedAt(mem, es, cap1, s1, cap2, s2, x);
    }
  }

  lemma SwapPreparation(mem: Memory, m: Mdb, cap1: Cap, s1: nat, cap2: Cap, s2: nat)
    requires s1 in mem && s2 in mem && s1 != s2
    requires IsRelabelling(mem[s1].cap, cap1) && IsRelabelling(mem[s2].cap, cap2)
    requires Represents(mem, m)
    ensures s1 != 0 && s2 != 0 && Mirrored(mem, s1) && Mirrored(mem, s2)
    ensures Represents(SwapMemory(mem, cap1, s1, cap2, s2), m.(es := SwapEntries(m.es, cap1, s1, cap2, s2)))
    ensures var mem' := SwapMemory(mem, cap1, s1, cap2, s2);
            && mem'.Keys == mem.Keys && mem'[s2].cap == cap1 && mem'[s1].cap == cap2
            && forall x | x in mem && x != s1 && x != s2 :: mem'[x].cap == mem[x].cap
  {
    assert HoldsAll(mem, m.es);
    assert mem[s1] == EMPTY_CTE ==> cap1.Null?;
    assert mem[s2] == EMPTY_CTE ==> cap2.Null?;
    hide Inv, Linked, SwapMemory, HoldsAll, IsRenaming;
    SwapRenames(mem, m.es, cap1, s1, cap2, s2);
    LinkedIsMirrored(mem, m.es, s1);
    LinkedIsMirrored(mem, m.es, s2);
    RenamingKeepsInv(m, SwapEntries(m.es, cap1, s1, cap2, s2));
    SwapLinks(mem, m.es, cap1, s1, cap2, s2);
    SwapMemoryCaps(mem, m.es, cap1, s1, cap2, s2);
  }

  lemma SwapKeeps(m0: Memory, mem: Memory, cap1: Cap, s1: nat, cap2: Cap, s2: nat)
    requires s1 in m0 && s2 in m0 && s1 != s2 && mem.Keys == m0.Keys
    requires IsRelabelling(m0[s1].cap, cap1) && IsRelabelling(m0[s2].cap, cap2)
    requires mem[s2].cap == cap1 && mem[s1].cap == cap2
    requires forall x | x in mem && x != s1 && x != s2 :: mem[x].cap == m0[x].cap
    ensures AllBacked(m0) && MayHold(s2, cap1) && MayHold(s1, cap2) ==> AllBacked(mem)
    ensures Housed(m0) && (Named(m0, s1) || m0[s2].cap.Null?) && Named(m0, s2) ==> Housed(mem)
  {
    assert Covers(cap1, m0[s1].cap) && Covers(cap2, m0[s2].cap);
    hide AllBacked, Housed, Named, Covers, MayHold;
    if AllBacked(m0) && MayHold(s2, cap1) && MayHold(s1, cap2) { SwapKeepsBacked(m0, mem, cap1, s1, cap2, s2); }
    hide IsRelabelling;
    if Housed(m0) && (Named(m0, s1) || m0[s2].cap.Null?) && Named(m0, s2) { SwapKeepsHoused(m0, mem, s1, s2); }
  }

  lemma SwapKeepsBacked(m0: Memory, mem: Memory, cap1: Cap, s1: nat, cap2: Cap, s2: nat)
    requires AllBacked(m0) && s1 in m0 && s2 in m0 && s1 != s2 && mem.Keys == m0.Keys
    requires IsRelabelling(m0[s1].cap, cap1) && IsRelabelling(m0[s2].cap, cap2)
    requires mem[s2].cap == cap1 && mem[s1].cap == cap2 && MayHold(s2, cap1) && MayHold(s1, cap2)
    requires forall x | x in mem && x != s1 && x != s2 :: mem[x].cap == m0[x].cap
    ensures AllBacked(mem)
  {
    hide AllBacked;
    forall x | x in mem ensures Backed(m0, mem[x].cap) && MayHold(x, mem[x].cap) {
      var y := Renamed(x, s1, s2);
      BackedAt(m0, x);
      BackedAt(m0, y);
      BackedAlike(m0, m0[y].cap, mem[x].cap);
    }
    BackedAfter(m0, mem);
  }

  lemma UnlinkCaps(mem: Memory, s: nat)
    requires NeighboursIn(mem, s) && s != 0
    ensures var mem' := Unlink(mem, s);
            && mem'.Keys == mem.Keys && mem'[s] == EMPTY_CTE
            && forall x | x in mem && x != s :: mem'[x].cap == mem[x].cap
  {
  }

  lemma RemovalKeeps(m0: Memory, mem: Memory, s: nat)
    requires s in m0 && mem.Keys == m0.Keys && mem[s].cap.Null?
    requires forall x | x in mem && x != s :: mem[x].cap == m0[x].cap
    ensures AllBacked(m0) ==> AllBacked(mem)
    ensures Housed(m0) && Dispensable(m0, s) ==> Housed(mem)
  {
    if AllBacked(m0) {
      forall x | x in mem ensures Backed(m0, mem[x].cap) { if x != s { BackedAt(m0, x); } }
      BackedAfter(m0, mem);
    }
    hide Backed, Dispensable, Named;
    if Housed(m0) && Dispensable(m0, s) { RemovalKeepsHoused(m0, mem, s); }
  }

  lemma EmptyPreparation(mem: Memory, m: Mdb, k: nat)
    requires Represents(mem, m) && k < |m.es|
    ensures m.es[k].slot != 0 && NeighboursIn(mem, m.es[k].slot) && mem[m.es[k].slot].cap == m.es[k].cap
    ensures Represents(Unlink(mem, m.es[k].slot), Removed(m, k))
    ensures var cleanup := CleanupInfo(m.es[k].cap, FinalCapability(mem, m.es[k].slot));
            Removed(m, k).irqs == if cleanup.IrqHandler? then m.irqs - {cleanup.irq} else m.irqs
  {
    hide Inv, EntryOk;
    OccupiedFacts(mem, m, k);
    ChecksAgree(mem, m.es, k);
    hide Linked, FinalCapability, IsFinalAt;
    RemoveKeepsInv(m, k);
    UnlinkLinks(mem, m.es, k);
  }

  lemma ZombiePreparation(mem: Memory, m: Mdb, k: nat, z: Cap)
    requires Represents(mem, m) && k < |m.es| && NeighboursIn(mem, m.es[k].slot)
    requires FinalCapability(mem, m.es[k].slot) && IsZombieOf(mem[m.es[k].slot].cap, z)
    ensures Represents(SetCap(mem, m.es[k].slot, z), m.(es := WithCap(m.es, k, z)))
  {
    hide Inv, EntryOk;
    OccupiedFacts(mem, m, k);
    ChecksAgree(mem, m.es, k);
    assert !z.Null?;
    hide Linked, FinalCapability, IsFinalAt, IsZombieOf;
    ZombifyKeepsInv(m, k, z);
    SetCapLinks(mem, m.es, k, z);
  }

  lemma InsertLinks(mem: Memory, m: Mdb, k: nat, dest: nat, newCap: Cap)
    requires Linked(mem, m.es) && EntriesNonNull(m.es) && k < |m.es| && NeighboursIn(mem, m.es[k].slot)
    requires dest in mem && dest != 0 && mem[dest] == EMPTY_CTE && !newCap.Null?
    ensures var src := m.es[k].slot;
            var marked := SetCap(mem, src, SourceAfterInsert(m.es[k].cap, newCap));
            var rev := IsCapRevocable(newCap, m.es[k].cap);
            && NeighboursIn(marked, src)
            && Linked(LinkAfter(marked, src, dest, newCap, rev, rev), CteInsert(m, k, dest, newCap).es)
  {
    var es, src := m.es, m.es[k].slot;
    EmptyIsFree(mem, es, dest);
    var c := SourceAfterInsert(es[k].cap, newCap);
    SetCapLinks(mem, es, k, c);
    var marked := WithCap(es, k, c);
    HeldNeighbours(SetCap(mem, src, c), marked, k);
    hide Linked, IsCapRevocable, SourceAfterInsert;
    LinkAfterLinks(SetCap(mem, src, c), marked, k, InsertedEntry(m, k, dest, newCap));
  }

  /** What every operation may use about an occupied slot. */
  lemma OccupiedFacts(mem: Memory, m: Mdb, k: nat)
    requires Represents(mem, m) && k < |m.es|
    ensures 0 !in mem && Linked(mem, m.es) && EntriesNonNull(m.es) && EntryOk(m.es[k])
    ensures NeighboursIn(mem, m.es[k].slot) && mem[m.es[k].slot] == NodeAt(m.es, k)
    ensures m.es[k].cap.IrqHandler? ==> m.es[k].cap.irq in m.irqs
  {
    AllNonNull(m.es);
    HeldNeighbours(mem, m.es, k);
    assert Holds(mem, m.es, k);
  }

  lemma InsertPreparation(mem: Memory, m: Mdb, k: nat, dest: nat, newCap: Cap)
    requires Represents(mem, m) && k < |m.es| && dest in mem && mem[dest] == EMPTY_CTE && MayInsert(m, k, newCap)
    ensures NeighboursIn(mem, m.es[k].slot) && mem[m.es[k].slot].cap == m.es[k].cap
    ensures var src := m.es[k].slot;
            var marked := SetCap(mem, src, SourceAfterInsert(m.es[k].cap, newCap));
            var rev := IsCapRevocable(newCap, m.es[k].cap);
            && NeighboursIn(marked, src)
            && Represents(LinkAfter(marked, src, dest, newCap, rev, rev), CteInsert(m, k, dest, newCap))
    ensures CteInsert(m, k, dest, newCap).irqs ==
            if m.es[k].cap.IrqControl? && newCap.IrqHandler? then m.irqs + {newCap.irq} else m.irqs
  {
    hide Inv, Linked, EntryOk;
    OccupiedFacts(mem, m, k);
    assert !newCap.Null?;
    CteInsertKeepsInv(m, k, dest, newCap);
    InsertLinks(mem, m, k, dest, newCap);
  }

  lemma WritePreparation(mem: Memory, m: Mdb, s: nat, cap: Cap)
    requires Represents(mem, m) && s in mem && mem[s] == EMPTY_CTE && MayBoot(m, cap)
    ensures Represents(mem[s := Cte(cap, 0, 0, true, true)], WriteSlot(m, s, cap))
            && WriteSlot(m, s, cap).irqs == m.irqs
  {
    AllNonNull(m.es);
    hide Inv, Linked, MayBoot;
    WriteSlotKeepsInv(m, s, cap);
    WriteSlotLinks(mem, m, s, cap);
  }

  lemma WriteSlotLinks(mem: Memory, m: Mdb, s: nat, cap: Cap)
    requires Linked(mem, m.es) && EntriesNonNull(m.es) && s in mem && s != 0 && mem[s] == EMPTY_CTE
    ensures Linked(mem[s := Cte(cap, 0, 0, true, true)], WriteSlot(m, s, cap).es)
  {
    var es, r, mem' := m.es, WriteSlot(m, s, cap).es, mem[s := Cte(cap, 0, 0, true, true)];
    EmptyIsFree(mem, es, s);
    forall i: nat | i < |r| ensures Holds(mem', r, i) { if i < |es| { assert Holds(mem, es, i); } }
    forall t | t in mem' && mem'[t] != EMPTY_CTE ensures exists i: nat :: Occupies(r, i, t) {
      if t == s {
        assert Occupies(r, |es|, t);
      } else {
        var i: nat :| Occupies(es, i, t);
        assert Occupies(r, i, t);
      }
    }
  }

  lemma NullIsEmpty(mem: Memory, m: Mdb, s: nat)
    requires Represents(mem, m) && s in mem && mem[s].cap.Null?
    ensures mem[s] == EMPTY_CTE
  {
    if mem[s] != EMPTY_CTE {
      var _ := OccupiedIndex(mem, m, s);
    }
  }

  lemma OccupiedIndex(mem: Memory, m: Mdb, s: nat) returns (k: nat)
    requires Represents(mem, m) && s in mem && mem[s] != EMPTY_CTE
    ensures Occupies(m.es, k, s) && NeighboursIn(mem, s) && mem[s].cap == m.es[k].cap && !mem[s].cap.Null?
  {
    k :| Occupies(m.es, k, s);
    hide Inv;
    OccupiedFacts(mem, m, k);
  }
}
