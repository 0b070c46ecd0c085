/**
 * The slots inside CNodes and thread control blocks, and those of the kernel's interrupt node: that they exist,
 * and that no cap is left where none can reach it.
 */
module CapObjects {
  import opened Words
  import opened Caps
  import opened CSpace

  const SLOT_SIZE: nat := 32

  /**
   * The slot of the interrupt node that belongs to an interrupt. The node is a table of the kernel's own; since
   * all objects lie below the end of the address space, its slots are numbered from there on.
   */
  function NodeSlot(irq: nat): nat {
    WORD + irq
  }

  /** The number of slots that a cap stands for: those inside its object, or the node slot of its interrupt. */
  function Capacity(c: Cap): nat {
    match c
    case CNode(_, r, _, _) => Pow2(r)
    case Thread(_) => TCB_CNODE_ENTRIES
    case Zombie(_, ZombieCNode(r), _) => Pow2(r)
    case Zombie(_, ZombieTcb, _) => TCB_CNODE_ENTRIES
    case IrqHandler(_) => 1
    case _ => 0
  }

  predicate HasSlots(c: Cap) {
    c.CNode? || c.Thread? || c.Zombie?
  }

  function SlotBase(c: Cap): nat {
    if c.IrqHandler? then NodeSlot(c.irq) else ObjectBase(c)
  }

  function SlotAt(c: Cap, i: nat): nat {
    SlotBase(c) + i * SLOT_SIZE
  }

  lemma SlotsAreInside(c: Cap, i: nat)
    requires HasSlots(c) && i < Capacity(c)
    ensures ObjectBase(c) <= SlotAt(c, i) < ObjectEnd(c)
  {
    match c {
      case CNode(_, r, _, _) => Pow2Add(r, 5); assert Pow2(5) == 32;
      case Thread(_) => Pow2Monotone(8, TCB_BITS); assert Pow2(8) == 256;
      case Zombie(_, ZombieCNode(r), _) => Pow2Add(r, 5); assert Pow2(5) == 32;
      case Zombie(_, ZombieTcb, _) => Pow2Monotone(8, TCB_BITS); assert Pow2(8) == 256;
    }
  }

  /** Two caps with slots whose objects share an address overlap. */
  lemma SharedSlotOverlaps(a: Cap, b: Cap, i: nat)
    requires HasSlots(a) && HasSlots(b) && i < Capacity(a) && ObjectBase(b) == SlotAt(a, i)
    ensures Overlap(a, b)
  {
    SlotsAreInside(a, i);
  }

  // ------------------------------------------------------------------ the slots exist

  /** The slots a cap stands for exist, and zombies count at most those slots. */
  predicate Backed(mem: Memory, c: Cap) {
    && (forall i: nat | i < Capacity(c) :: SlotAt(c, i) in mem)
    && (c.Zombie? ==> c.number <= Capacity(c))
  }

  /** The interrupt node holds nothing but notification caps. */
  predicate MayHold(s: nat, c: Cap) {
    s < WORD || c.Null? || c.Notification?
  }

  predicate AllBacked(mem: Memory) {
    forall s | s in mem :: Backed(mem, mem[s].cap) && MayHold(s, mem[s].cap)
  }

  lemma BackedAfter(m0: Memory, mem: Memory)
    requires mem.Keys == m0.Keys
    requires forall x | x in mem :: Backed(m0, mem[x].cap) && MayHold(x, mem[x].cap)
    ensures AllBacked(mem)
  {
    forall x | x in mem ensures Backed(mem, mem[x].cap) { assert Backed(m0, mem[x].cap); }
  }

  lemma BackedAt(mem: Memory, s: nat)
    requires AllBacked(mem) && s in mem
    ensures Backed(mem, mem[s].cap) && MayHold(s, mem[s].cap)
  {
  }

  lemma BackedAlike(mem: Memory, a: Cap, b: Cap)
    requires Backed(mem, a) && (Capacity(b) == 0 || (SlotBase(b) == SlotBase(a) && Capacity(b) == Capacity(a)))
    requires b.Zombie? ==> b.number <= Capacity(b)
    ensures Backed(mem, b)
  {
    forall i: nat | i < Capacity(b) ensures SlotAt(b, i) in mem { assert SlotAt(a, i) in mem; }
  }

  // ------------------------------------------------------------------ no cap is left behind

  /** How many of its slots a cap accounts for: a zombie only for those it still counts. */
  function Counted(c: Cap): nat {
    if c.Zombie? then c.number else Capacity(c)
  }

  predicate Names(c: Cap, x: nat) {
    exists i: nat :: i < Counted(c) && x == SlotAt(c, i)
  }

  predicate Named(mem: Memory, x: nat) {
    exists t :: t in mem && Names(mem[t].cap, x)
  }

  /** Every slot that holds a cap is one that some cap stands for. */
  predicate Housed(mem: Memory) {
    forall x | x in mem && !mem[x].cap.Null? :: Named(mem, x)
  }

  /** b accounts for every slot that a accounts for. */
  predicate Covers(b: Cap, a: Cap) {
    Counted(a) == 0 || (SlotBase(b) == SlotBase(a) && Counted(a) <= Counted(b))
  }

  lemma CoversNames(b: Cap, a: Cap, x: nat)
    requires Covers(b, a) && Names(a, x)
    ensures Names(b, x)
  {
    var i: nat :| i < Counted(a) && x == SlotAt(a, i);
    assert x == SlotAt(b, i);
  }

  /** The caps in memory account for the same slots as before, or more. */
  lemma NamedKept(m0: Memory, mem: Memory, x: nat)
    requires mem.Keys == m0.Keys && Named(m0, x)
    requires forall t | t in m0 :: Covers(mem[t].cap, m0[t].cap)
    ensures Named(mem, x)
  {
    hide Names, Covers;
    var t :| t in m0 && Names(m0[t].cap, x);
    CoversNames(mem[t].cap, m0[t].cap, x);
  }

  /** A cap is added in a slot of some object; the others stay as they are, or stand for more. */
  lemma AddKeepsHoused(m0: Memory, mem: Memory, s: nat)
    requires Housed(m0) && mem.Keys == m0.Keys && s in mem && (Named(m0, s) || Names(mem[s].cap, s))
    requires forall t | t in m0 :: Covers(mem[t].cap, m0[t].cap)
    requires forall x | x in m0 && x != s && m0[x].cap.Null? :: mem[x].cap.Null?
    ensures Housed(mem)
  {
    hide Names, Covers;
    forall x | x in mem && !mem[x].cap.Null? ensures Named(mem, x) {
      if Named(m0, x) { NamedKept(m0, mem, x); }
    }
  }

  /** Wherever two caps trade places, the same slots are accounted for. */
  lemma SwapKeepsNamed(m0: Memory, mem: Memory, a: nat, b: nat, x: nat)
    requires mem.Keys == m0.Keys && a in mem && b in mem && Named(m0, x)
    requires Covers(mem[b].cap, m0[a].cap) && Covers(mem[a].cap, m0[b].cap)
    requires forall y | y in mem && y != a && y != b :: mem[y].cap == m0[y].cap
    ensures Named(mem, x)
  {
    hide Names, Covers;
    var t :| t in m0 && Names(m0[t].cap, x);
    if t == a {
      CoversNames(mem[b].cap, m0[a].cap, x);
    } else if t == b {
      CoversNames(mem[a].cap, m0[b].cap, x);
    } else {
      assert Names(mem[t].cap, x);
    }
  }

  /** Two caps trade places, within slots of some object. */
  lemma SwapKeepsHoused(m0: Memory, mem: Memory, a: nat, b: nat)
    requires Housed(m0) && mem.Keys == m0.Keys && a in mem && b in mem && (Named(m0, a) || mem[a].cap.Null?)
             && Named(m0, b)
    requires Covers(mem[b].cap, m0[a].cap) && Covers(mem[a].cap, m0[b].cap)
    requires forall x | x in mem && x != a && x != b :: mem[x].cap == m0[x].cap
    ensures Housed(mem)
  {
    hide Named, Covers;
    forall x | x in mem && !mem[x].cap.Null? ensures Named(mem, x) {
      SwapKeepsNamed(m0, mem, a, b, x);
    }
  }

  /** Without the cap in s, its slots would still be accounted for, or are empty. */
  predicate Dispensable(mem: Memory, s: nat)
    requires s in mem
  {
    forall x | x in mem && x != s && Names(mem[s].cap, x) && !mem[x].cap.Null? :: NamedElsewhere(mem, s, x)
  }

  predicate NamedElsewhere(mem: Memory, s: nat, x: nat) {
    exists t :: t in mem && t != s && Names(mem[t].cap, x)
  }

  lemma RemovalKeepsHoused(m0: Memory, mem: Memory, s: nat)
    requires Housed(m0) && mem.Keys == m0.Keys && s in mem && mem[s].cap.Null? && Dispensable(m0, s)
    requires forall x | x in mem && x != s :: mem[x].cap == m0[x].cap
    ensures Housed(mem)
  {
    hide Names;
    forall x | x in mem && !mem[x].cap.Null? ensures Named(mem, x) {
      assert Named(m0, x);
      var t :| t in m0 && Names(m0[t].cap, x);
      if t == s {
        assert NamedElsewhere(m0, s, x);
        var u :| u in m0 && u != s && Names(m0[u].cap, x);
        assert Names(mem[u].cap, x);
      } else {
        assert Names(mem[t].cap, x);
      }
    }
  }

  lemma StillCounted(z: Cap, i: nat)
    requires z.Zombie? && i < z.number
    ensures i != z.number - 1 ==> Names(z.(number := z.number - 1), SlotAt(z, i))
  {
    assert SlotAt(z.(number := z.number - 1), i) == SlotAt(z, i);
  }

  /** A zombie whose last slot is empty may count one slot less. */
  lemma CountDownKeepsHoused(m0: Memory, mem: Memory, s: nat)
    requires Housed(m0) && mem.Keys == m0.Keys && s in mem && m0[s].cap.Zombie? && m0[s].cap.number > 0
    requires mem[s].cap == m0[s].cap.(number := m0[s].cap.number - 1)
    requires var e := SlotAt(m0[s].cap, m0[s].cap.number - 1); e in m0 ==> m0[e].cap.Null? && e != s
    requires forall x | x in mem && x != s :: mem[x].cap == m0[x].cap
    ensures Housed(mem)
  {
    forall x | x in mem && !mem[x].cap.Null? ensures Named(mem, x) {
      assert Named(m0, x);
      var t :| t in m0 && Names(m0[t].cap, x);
      if t == s {
        var i: nat :| i < m0[s].cap.number && x == SlotAt(m0[s].cap, i);
        hide SlotAt;
        StillCounted(m0[s].cap, i);
      } else {
        assert Names(mem[t].cap, x);
      }
    }
  }

  // ------------------------------------------------------------------ adding caps

  /** The same slots, if any. */
  predicate Alike(a: Cap, b: Cap) {
    && a.Null? == b.Null? && a.Zombie? == b.Zombie? && a.Notification? == b.Notification?
    && Capacity(a) == Capacity(b) && Counted(a) == Counted(b)
    && (Capacity(a) > 0 || Counted(a) > 0 ==> SlotBase(a) == SlotBase(b))
  }

  /** The empty slot s received the cap c; the other caps stand for the same slots as before. */
  predicate Added(m0: Memory, mem: Memory, s: nat, c: Cap) {
    && mem.Keys == m0.Keys && s in mem && m0[s].cap.Null? && mem[s].cap == c
    && forall x | x in mem && x != s :: Alike(m0[x].cap, mem[x].cap)
  }

  lemma AddedFacts(m0: Memory, mem: Memory, s: nat, c: Cap)
    requires Added(m0, mem, s, c)
    ensures AllBacked(m0) && Backed(m0, c) && MayHold(s, c) ==> AllBacked(mem)
    ensures Housed(m0) && (Named(m0, s) || Names(c, s)) ==> Housed(mem)
    ensures forall x | Named(m0, x) :: Named(mem, x)
  {
    AddedBacked(m0, mem, s, c);
    forall t | t in m0 ensures Covers(mem[t].cap, m0[t].cap) { }
    hide Named, Names, Covers;
    forall x | Named(m0, x) ensures Named(mem, x) { NamedKept(m0, mem, x); }
    if Housed(m0) && (Named(m0, s) || Names(c, s)) { AddKeepsHoused(m0, mem, s); }
  }

  lemma AddedBacked(m0: Memory, mem: Memory, s: nat, c: Cap)
    requires Added(m0, mem, s, c)
    ensures AllBacked(m0) && Backed(m0, c) && MayHold(s, c) ==> AllBacked(mem)
  {
    if AllBacked(m0) && Backed(m0, c) && MayHold(s, c) {
      forall x | x in mem ensures Backed(m0, mem[x].cap) {
        BackedAt(m0, x);
        if x != s { BackedAlike(m0, m0[x].cap, mem[x].cap); }
      }
      BackedAfter(m0, mem);
    }
  }
}
