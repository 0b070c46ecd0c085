/** The system calls that copy, mint, mutate and rotate caps, and issue interrupt handlers. */
module CapInvocations {
  import opened Words
  import opened Caps
  import opened MdbList
  import opened MdbOps
  import opened CSpace
  import opened CapObjects
  import opened CapSlots

  datatype Outcome = Success | DeleteFirst | RevokeFirst | FailedLookup | IllegalOperation

  /** Slot dest holds a cap derived from that in src, and all other caps are as they were, or marked as full. */
  ghost predicate Derives(m0: Memory, d0: Mdb, mem: Memory, d: Mdb, src: nat, dest: nat) {
    && mem.Keys == m0.Keys && src in m0 && dest in m0 && src != dest
    && mem[src].cap == SourceAfterInsert(m0[src].cap, mem[dest].cap)
    && (forall x | x in m0 && x != src && x != dest :: mem[x].cap == m0[x].cap)
    && exists k: nat :: Occupies(d0.es, k, src) && d == CteInsert(d0, k, dest, mem[dest].cap)
  }

  /** The cap that a derivation makes may be inserted. */
  method Insert(c: Slots, src: nat, dest: nat, newCap: Cap)
    requires c.Valid() && src in c.mem && dest in c.mem && c.mem[dest].cap.Null? && !c.mem[src].cap.Null?
    requires NeighboursIn(c.mem, src) && IsDerivation(NoChildren(c.mem, src), c.mem[src].cap, newCap)
    modifies c
    ensures c.Valid() && c.mem.Keys == old(c.mem.Keys) && c.mem[dest].cap == newCap
    ensures Derives(old(c.mem), old(c.mdb), c.mem, c.mdb, src, dest)
    ensures AllBacked(old(c.mem)) && MayHold(dest, newCap) ==> AllBacked(c.mem)
    ensures Housed(old(c.mem)) && Named(old(c.mem), dest) ==> Housed(c.mem)
  {
    hide Represents, IsDerivation, NoChildren, NoChildrenAt, AllBacked, MayHold, Housed, Named, CteInsert, Derives;
    NullIsEmpty(c.mem, c.mdb, dest);
    ghost var k := OccupiedIndex(c.mem, c.mdb, src);
    DerivationMayBeInserted(c.mem, c.mdb, k, src, newCap);
    if AllBacked(c.mem) { BackedAt(c.mem, src); }
    c.InsertCap(newCap, src, dest, k);
    InsertedDerives(old(c.mem), old(c.mdb), c.mem, c.mdb, src, dest, k);
  }

  lemma InsertedDerives(m0: Memory, d0: Mdb, mem: Memory, d: Mdb, src: nat, dest: nat, k: nat)
    requires mem.Keys == m0.Keys && src in m0 && dest in m0 && src != dest
    requires mem[src].cap == SourceAfterInsert(m0[src].cap, mem[dest].cap)
    requires forall x | x in mem && x != src && x != dest :: mem[x].cap == m0[x].cap
    requires Occupies(d0.es, k, src) && d == CteInsert(d0, k, dest, mem[dest].cap)
    ensures Derives(m0, d0, mem, d, src, dest)
  {
  }

  lemma IssuedIsActive(mem: Memory, m: Mdb, dest: nat, irq: nat)
    requires Represents(mem, m) && dest in mem && mem[dest].cap == IrqHandler(irq)
    ensures irq in m.irqs
  {
    ActiveMeansHandler(mem, m, irq);
  }

  lemma DerivationMayBeInserted(mem: Memory, m: Mdb, k: nat, src: nat, newCap: Cap)
    requires Represents(mem, m) && Occupies(m.es, k, src) && NeighboursIn(mem, src) && mem[src].cap == m.es[k].cap
    requires IsDerivation(NoChildren(mem, src), mem[src].cap, newCap)
    ensures MayInsert(m, k, newCap) && !mem[src].cap.IrqControl?
    ensures newCap.IrqHandler? ==> newCap == mem[src].cap
  {
    hide Inv;
    OccupiedFacts(mem, m, k);
    ChecksAgree(mem, m.es, k);
  }

  /** CNodeCopy: the new cap differs from the source in nothing but rights, and has those that the mask leaves. */
  method Copy(c: Slots, src: nat, dest: nat, rights: Rights) returns (r: Outcome)
    requires c.Valid() && src in c.mem && dest in c.mem
    modifies c
    ensures c.Valid() && c.mem.Keys == old(c.mem.Keys)
    ensures !old(c.mem[src]).cap.Null? ==> NeighboursIn(old(c.mem), src)
    ensures r == (if !old(c.mem[dest]).cap.Null? then DeleteFirst
                  else if old(c.mem[src]).cap.Null? then FailedLookup
                  else if old(c.mem[src]).cap.Untyped? && !NoChildren(old(c.mem), src) then RevokeFirst
                  else if old(c.mem[src]).cap.Zombie? || old(c.mem[src]).cap.IrqControl? then IllegalOperation
                  else Success)
    ensures r != Success ==> c.mem == old(c.mem) && c.mdb == old(c.mdb) && c.irqs == old(c.irqs)
    ensures r == Success ==>
              var from, to := old(c.mem[src]).cap, c.mem[dest].cap;
              && Derives(old(c.mem), old(c.mdb), c.mem, c.mdb, src, dest)
              && SameBut(from, to) && SameGuard(from, to) && BadgeOf(to) == BadgeOf(from)
              && RightsOf(to) == RightsOf(from) * MaskOf(rights)
    ensures AllBacked(old(c.mem)) && MayHold(dest, c.mem[dest].cap) ==> AllBacked(c.mem)
    ensures Housed(old(c.mem)) && Named(old(c.mem), dest) ==> Housed(c.mem)
  {
    hide Represents, NoChildren, AllBacked, MayHold, Housed, Named, Derives;
    var cap := c.mem[src].cap;
    if !cap.Null? { NeighboursOf(c.mem, c.mdb, src); }
    if !c.mem[dest].cap.Null? {
      return DeleteFirst;
    }
    if cap.Null? {
      return FailedLookup;
    }
    CopyKeepsMaskedRights(NoChildren(c.mem, src), rights, cap);
    hide MaskCapRights, DeriveCap, RightsOf;
    var newCap := DeriveCap(NoChildren(c.mem, src), MaskCapRights(rights, cap));
    if cap.Untyped? && !NoChildren(c.mem, src) {
      return RevokeFirst;
    }
    if newCap.Null? {
      return IllegalOperation;
    }
    Insert(c, src, dest, newCap);
    return Success;
  }

  lemma NeighboursOf(mem: Memory, m: Mdb, s: nat)
    requires Represents(mem, m) && s in mem && !mem[s].cap.Null?
    ensures NeighboursIn(mem, s)
  {
    OccupiedNeighbours(mem, m, s);
  }

  /** CNodeMint: as a copy, but with the badge or the guard that the data word asks for. */
  method Mint(c: Slots, src: nat, dest: nat, rights: Rights, data: Word) returns (r: Outcome)
    requires c.Valid() && src in c.mem && dest in c.mem
    modifies c
    ensures c.Valid() && c.mem.Keys == old(c.mem.Keys)
    ensures !old(c.mem[src]).cap.Null? ==> NeighboursIn(old(c.mem), src)
    ensures r == (if !old(c.mem[dest]).cap.Null? then DeleteFirst
                  else if old(c.mem[src]).cap.Null? then FailedLookup
                  else if old(c.mem[src]).cap.Untyped? && !NoChildren(old(c.mem), src) then RevokeFirst
                  else if old(c.mem[src]).cap.Zombie? || old(c.mem[src]).cap.IrqControl?
                          || CannotRelabel(false, data, old(c.mem[src]).cap) then IllegalOperation
                  else Success)
    ensures r != Success ==> c.mem == old(c.mem) && c.mdb == old(c.mdb) && c.irqs == old(c.irqs)
    ensures r == Success ==>
              var from, to := old(c.mem[src]).cap, c.mem[dest].cap;
              && Derives(old(c.mem), old(c.mdb), c.mem, c.mdb, src, dest)
              && SameBut(from, to) && Labelled(data, from, to) && RightsOf(to) == RightsOf(from) * MaskOf(rights)
    ensures AllBacked(old(c.mem)) && MayHold(dest, c.mem[dest].cap) ==> AllBacked(c.mem)
    ensures Housed(old(c.mem)) && Named(old(c.mem), dest) ==> Housed(c.mem)
  {
    hide Represents, NoChildren, AllBacked, MayHold, Housed, Named, Derives, CannotRelabel, Labelled;
    var cap := c.mem[src].cap;
    if !cap.Null? { NeighboursOf(c.mem, c.mdb, src); }
    if !c.mem[dest].cap.Null? {
      return DeleteFirst;
    }
    if cap.Null? {
      return FailedLookup;
    }
    MintGivesBadgeOrGuard(NoChildren(c.mem, src), rights, data, cap);
    NoLabel(data, cap);
    hide MaskCapRights, UpdateCapData, DeriveCap, RightsOf;
    var newCap := DeriveCap(NoChildren(c.mem, src), UpdateCapData(false, data, MaskCapRights(rights, cap)));
    if cap.Untyped? && !NoChildren(c.mem, src) {
      return RevokeFirst;
    }
    if newCap.Null? {
      return IllegalOperation;
    }
    Insert(c, src, dest, newCap);
    return Success;
  }

  lemma NoLabel(data: Word, c: Cap)
    ensures c.Untyped? ==> !CannotRelabel(false, data, c)
  {
  }

  /** CNodeMutate: the cap moves; only the guard of a CNode cap can change. */
  method Mutate(c: Slots, src: nat, dest: nat, data: Word) returns (r: Outcome)
    requires c.Valid() && src in c.mem && dest in c.mem
    modifies c
    ensures c.Valid() && c.mem.Keys == old(c.mem.Keys)
    ensures r == (if !old(c.mem[dest]).cap.Null? then DeleteFirst
                  else if old(c.mem[src]).cap.Null? then FailedLookup
                  else if CannotRelabel(true, data, old(c.mem[src]).cap) then IllegalOperation
                  else Success)
    ensures r != Success ==> c.mem == old(c.mem) && c.mdb == old(c.mdb)
    ensures r == Success ==>
              var from, to := old(c.mem[src]).cap, c.mem[dest].cap;
              && c.mem[src] == EMPTY_CTE
              && IsRelabelling(from, to) && Labelled(data, from, to)
              && (forall x | x in c.mem && x != src && x != dest :: c.mem[x].cap == old(c.mem[x].cap))
              && c.mdb == old(c.mdb).(es := SwapEntries(old(c.mdb).es, to, src, Null, dest))
    ensures AllBacked(old(c.mem)) && MayHold(dest, c.mem[dest].cap) ==> AllBacked(c.mem)
    ensures Housed(old(c.mem)) && Named(old(c.mem), dest) ==> Housed(c.mem)
  {
    hide Represents, AllBacked, MayHold, Housed, Named, CannotRelabel, Labelled, SwapEntries;
    var cap := c.mem[src].cap;
    if !c.mem[dest].cap.Null? {
      return DeleteFirst;
    }
    if cap.Null? {
      return FailedLookup;
    }
    MutateRelabels(data, cap);
    hide UpdateCapData, RightsOf, IsRelabelling;
    var newCap := UpdateCapData(true, data, cap);
    if newCap.Null? {
      return IllegalOperation;
    }
    NullIsEmpty(c.mem, c.mdb, dest);
    c.Move(newCap, src, dest);
    return Success;
  }

  lemma MoveKeepsNamed(m0: Memory, mem: Memory, s: nat, d: nat, x: nat)
    requires mem.Keys == m0.Keys && s in mem && d in mem && m0[d].cap.Null? && mem[s].cap.Null?
    requires IsRelabelling(m0[s].cap, mem[d].cap)
    requires forall y | y in mem && y != s && y != d :: mem[y].cap == m0[y].cap
    ensures Named(m0, x) ==> Named(mem, x)
  {
    hide Named;
    if Named(m0, x) {
      assert Covers(mem[d].cap, m0[s].cap) && Covers(mem[s].cap, m0[d].cap);
      SwapKeepsNamed(m0, mem, s, d, x);
    }
  }

  lemma OccupiedIsNamed(mem: Memory, x: nat)
    requires x in mem && !mem[x].cap.Null?
    ensures Housed(mem) ==> Named(mem, x)
  {
    hide Named;
  }

  /** CNodeRotate: the pivot's cap goes to dest and the source's to the pivot; with src == dest they trade places. */
  method Rotate(c: Slots, src: nat, pivot: nat, dest: nat, srcData: Word, pivotData: Word) returns (r: Outcome)
    requires c.Valid() && src in c.mem && pivot in c.mem && dest in c.mem
    modifies c
    ensures c.Valid() && c.mem.Keys == old(c.mem.Keys)
    ensures r == (if pivot == src || pivot == dest then IllegalOperation
                  else if src != dest && !old(c.mem[dest]).cap.Null? then DeleteFirst
                  else if old(c.mem[src]).cap.Null? || old(c.mem[pivot]).cap.Null? then FailedLookup
                  else if CannotRelabel(true, srcData, old(c.mem[src]).cap)
                          || CannotRelabel(true, pivotData, old(c.mem[pivot]).cap) then IllegalOperation
                  else Success)
    ensures r != Success ==> c.mem == old(c.mem) && c.mdb == old(c.mdb)
    ensures r == Success ==>
              && IsRelabelling(old(c.mem[src]).cap, c.mem[pivot].cap)
              && Labelled(srcData, old(c.mem[src]).cap, c.mem[pivot].cap)
              && IsRelabelling(old(c.mem[pivot]).cap, c.mem[dest].cap)
              && Labelled(pivotData, old(c.mem[pivot]).cap, c.mem[dest].cap)
              && (src != dest ==> c.mem[src] == EMPTY_CTE)
              && (forall x | x in c.mem && x != src && x != pivot && x != dest :: c.mem[x].cap == old(c.mem[x].cap))
              && var atPivot, atDest, es := c.mem[pivot].cap, c.mem[dest].cap, old(c.mdb.es);
                 c.mdb == old(c.mdb).(es :=
                   if src == dest then SwapEntries(es, atPivot, src, atDest, pivot)
                   else SwapEntries(SwapEntries(es, atDest, pivot, Null, dest), atPivot, src, Null, pivot))
    ensures AllBacked(old(c.mem)) && MayHold(dest, c.mem[dest].cap) && MayHold(pivot, c.mem[pivot].cap) ==>
              AllBacked(c.mem)
    ensures Housed(old(c.mem)) && Named(old(c.mem), dest) ==> Housed(c.mem)
  {
    hide Represents, AllBacked, MayHold, Housed, Named, CannotRelabel, Labelled, SwapEntries;
    if pivot == src || pivot == dest {
      return IllegalOperation;
    }
    if src != dest && !c.mem[dest].cap.Null? {
      return DeleteFirst;
    }
    if c.mem[src].cap.Null? || c.mem[pivot].cap.Null? {
      return FailedLookup;
    }
    MutateRelabels(srcData, c.mem[src].cap);
    MutateRelabels(pivotData, c.mem[pivot].cap);
    hide UpdateCapData, RightsOf, IsRelabelling;
    var newSrc := UpdateCapData(true, srcData, c.mem[src].cap);
    var newPivot := UpdateCapData(true, pivotData, c.mem[pivot].cap);
    if newSrc.Null? || newPivot.Null? {
      return IllegalOperation;
    }
    OccupiedIsNamed(c.mem, pivot);
    if src == dest {
      c.Swap(newSrc, src, newPivot, pivot);
    } else {
      NullIsEmpty(c.mem, c.mdb, dest);
      c.Move(newPivot, pivot, dest);
      MoveKeepsNamed(old(c.mem), c.mem, pivot, dest, pivot);
      c.Move(newSrc, src, pivot);
    }
    return Success;
  }

  /** decodeIRQControlInvocation: an interrupt is issued exactly if no cap to it exists. */
  method IssueHandler(c: Slots, control: nat, dest: nat, irq: nat) returns (r: Outcome)
    requires c.Valid() && control in c.mem && c.mem[control].cap.IrqControl? && dest in c.mem
    modifies c
    ensures c.Valid() && c.mem.Keys == old(c.mem.Keys)
    ensures r == (if HandlerExists(old(c.mem), irq) then RevokeFirst
                  else if !old(c.mem[dest]).cap.Null? then DeleteFirst
                  else Success)
    ensures r != Success ==> c.mem == old(c.mem) && c.mdb == old(c.mdb) && c.irqs == old(c.irqs)
    ensures r == Success ==>
              && c.mem[dest].cap == IrqHandler(irq) && irq in c.irqs
              && Derives(old(c.mem), old(c.mdb), c.mem, c.mdb, control, dest)
  {
    hide Represents, Derives, CteInsert, HandlerExists, NoChildrenAt;
    ActiveMeansHandler(c.mem, c.mdb, irq);
    if irq in c.irqs {
      return RevokeFirst;
    }
    if !c.mem[dest].cap.Null? {
      return DeleteFirst;
    }
    NullIsEmpty(c.mem, c.mdb, dest);
    ghost var k := OccupiedIndex(c.mem, c.mdb, control);
    c.InsertCap(IrqHandler(irq), control, dest, k);
    InsertedDerives(old(c.mem), old(c.mdb), c.mem, c.mdb, control, dest, k);
    IssuedIsActive(c.mem, c.mdb, dest, irq);
    return Success;
  }

  predicate HandlerExists(mem: Memory, irq: nat) {
    exists x :: x in mem && mem[x].cap == IrqHandler(irq)
  }

  /** An interrupt is active exactly while some slot holds a handler for it. */
  lemma ActiveMeansHandler(mem: Memory, m: Mdb, irq: nat)
    requires Represents(mem, m)
    ensures irq in m.irqs <==> HandlerExists(mem, irq)
  {
    InvOf(mem, m);
    if irq in m.irqs {
      assert HasHandler(m.es, irq);
      var j: nat :| j < |m.es| && m.es[j].cap == IrqHandler(irq);
      hide Inv;
      OccupiedFacts(mem, m, j);
      assert mem[m.es[j].slot].cap == IrqHandler(irq);
    }
    if HandlerExists(mem, irq) {
      var x :| x in mem && mem[x].cap == IrqHandler(irq);
      hide Represents;
      var j := OccupiedIndex(mem, m, x);
      assert m.es[j].cap.irq in m.irqs;
    }
  }
}
