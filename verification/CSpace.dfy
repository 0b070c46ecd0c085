/**
 * Capability slots in memory: the pointer code of object/cnode.c, proved against the derivation lists.
 */
module CSpace {
  import opened Caps
  import opened MdbList
  import opened MdbSteps

  /** cte_t: a cap and its MDB node; address 0 is the null pointer. */
  datatype Cte = Cte(cap: Cap, next: nat, prev: nat, revocable: bool, firstBadged: bool)

  const EMPTY_CTE := Cte(Null, 0, 0, false, false)

  type Memory = map<nat, Cte>

  // ---------------------------------------------------------- memory that holds the lists

  function NodeAt(es: seq<Entry>, i: nat): Cte
    requires i < |es|
  {
    Cte(es[i].cap, if HasNext(es, i) then es[i + 1].slot else 0, if HasPrev(es, i) then es[i - 1].slot else 0,
        es[i].revocable, es[i].firstBadged)
  }

  predicate Occupies(es: seq<Entry>, i: nat, s: nat) {
    i < |es| && es[i].slot == s
  }

  predicate DistinctSlots(es: seq<Entry>) {
    && (forall i | 0 <= i < |es| :: es[i].slot != 0)
    && (forall i, j | 0 <= i < |es| && 0 <= j < |es| && i != j :: es[i].slot != es[j].slot)
  }

  predicate Holds(mem: Memory, es: seq<Entry>, i: nat)
    requires i < |es|
  {
    es[i].slot in mem && mem[es[i].slot] == NodeAt(es, i)
  }

  /** A slot outside the lists is empty. */
  ghost predicate Tracked(mem: Memory, es: seq<Entry>) {
    forall s | s in mem && mem[s] != EMPTY_CTE :: exists i: nat :: Occupies(es, i, s)
  }

  /** The slots of the lists hold exactly their entries, doubly linked; every other slot is empty. */
  ghost predicate Linked(mem: Memory, es: seq<Entry>) {
    && DistinctSlots(es)
    && HoldsAll(mem, es)
    && Tracked(mem, es)
  }

  /** Next and prev are inverse to each other along every list. */
  lemma {:induction false} LinksAreInverse(mem: Memory, es: seq<Entry>, s: nat)
    requires Linked(mem, es) && s in mem && mem[s] != EMPTY_CTE
    ensures mem[s].next != 0 ==> mem[s].next in mem && mem[mem[s].next].prev == s
    ensures mem[s].prev != 0 ==> mem[s].prev in mem && mem[mem[s].prev].next == s
  {
    var i: nat :| Occupies(es, i, s);
    assert Holds(mem, es, i);
    if HasNext(es, i) { assert Holds(mem, es, i + 1); }
    if HasPrev(es, i) { assert Holds(mem, es, i - 1); }
  }

  /** The slot is occupied and its links, where not null, lead to occupied slots. */
  predicate NeighboursIn(mem: Memory, s: nat) {
    && s in mem && mem[s] != EMPTY_CTE
    && (mem[s].next != 0 ==> mem[s].next in mem && mem[mem[s].next] != EMPTY_CTE)
    && (mem[s].prev != 0 ==> mem[s].prev in mem && mem[mem[s].prev] != EMPTY_CTE)
  }

  lemma {:induction false} HeldNeighbours(mem: Memory, es: seq<Entry>, k: nat)
    requires HoldsAll(mem, es) && EntriesNonNull(es) && k < |es|
    ensures NeighboursIn(mem, es[k].slot)
  {
    assert Holds(mem, es, k);
    if HasNext(es, k) { assert Holds(mem, es, k + 1); }
    if HasPrev(es, k) { assert Holds(mem, es, k - 1); }
  }

  // ----------------------------------------------------------------- pointer-level updates

  /** The writes of cteInsert and insertNewCap once the source cap is in place. */
  function LinkAfter(mem: Memory, src: nat, dest: nat, cap: Cap, revocable: bool, firstBadged: bool): Memory
    requires NeighboursIn(mem, src) && dest in mem
  {
    var next := mem[src].next;
    var m1 := mem[dest := Cte(cap, next, src, revocable, firstBadged)];
    var m2 := m1[src := m1[src].(next := dest)];
    if next != 0 then m2[next := m2[next].(prev := dest)] else m2
  }

  /** An empty slot belongs to no list. */
  lemma {:induction false} EmptyIsFree(mem: Memory, es: seq<Entry>, s: nat)
    requires HoldsAll(mem, es) && s in mem && mem[s] == EMPTY_CTE
    requires forall i | 0 <= i < |es| :: !es[i].cap.Null?
    ensures forall i | 0 <= i < |es| :: es[i].slot != s
  {
    forall i | 0 <= i < |es| ensures es[i].slot != s { assert Holds(mem, es, i); }
  }

  predicate HoldsAll(mem: Memory, es: seq<Entry>) {
    forall i | 0 <= i < |es| :: Holds(mem, es, i)
  }

  lemma {:induction false} InsertedNode(es: seq<Entry>, k: nat, e: Entry, i: nat)
    requires k < |es| && !e.head && i <= |es|
    ensures NodeAt(InsertAfter(es, k, e), i) ==
            if i == k + 1 then Cte(e.cap, NodeAt(es, k).next, es[k].slot, e.revocable, e.firstBadged)
            else if i == k then NodeAt(es, k).(next := e.slot)
            else if i == k + 2 && HasNext(es, k) then NodeAt(es, k + 1).(prev := e.slot)
            else NodeAt(es, Before(k, i))
  {
    var r := InsertAfter(es, k, e);
    hide InsertAfter;
    assert i + 1 < |r| ==> r[i + 1] == if i + 1 <= k then es[i + 1] else if i == k then e else es[i];
    assert i > 0 ==> r[i - 1] == if i - 1 <= k then es[i - 1] else if i == k + 2 then e else es[i - 2];
  }

  lemma {:induction false} LinkAfterHolds(mem: Memory, es: seq<Entry>, k: nat, e: Entry, i: nat)
    requires DistinctSlots(es) && HoldsAll(mem, es) && k < |es| && Holds(mem, es, k) && !e.head
    requires e.slot in mem && e.slot != 0 && forall i | 0 <= i < |es| :: es[i].slot != e.slot
    requires NeighboursIn(mem, es[k].slot) && i <= |es|
    ensures Holds(LinkAfter(mem, es[k].slot, e.slot, e.cap, e.revocable, e.firstBadged), InsertAfter(es, k, e), i)
  {
    InsertedNode(es, k, e, i);
    NextSlot(es, k);
    if i != k + 1 {
      assert Holds(mem, es, Before(k, i));
      assert InsertAfter(es, k, e)[i] == es[Before(k, i)];
      assert i == k + 2 || NodeAt(es, k).next != es[Before(k, i)].slot;
    }
    hide NodeAt;
    hide InsertAfter;
  }

  /** The slot a node points to next is the slot of the next entry and of no other. */
  lemma {:induction false} NextSlot(es: seq<Entry>, k: nat)
    requires DistinctSlots(es) && k < |es|
    ensures forall i | 0 <= i < |es| :: NodeAt(es, k).next == es[i].slot <==> HasNext(es, k) && i == k + 1
  {
  }

  lemma {:induction false} LinkAfterLinks(mem: Memory, es: seq<Entry>, k: nat, e: Entry)
    requires Linked(mem, es) && k < |es| && !e.head && !e.cap.Null?
    requires e.slot in mem && e.slot != 0 && mem[e.slot] == EMPTY_CTE && EntriesNonNull(es)
    requires NeighboursIn(mem, es[k].slot)
    ensures Linked(LinkAfter(mem, es[k].slot, e.slot, e.cap, e.revocable, e.firstBadged), InsertAfter(es, k, e))
  {
    hide Holds;
    EmptyIsFree(mem, es, e.slot);
    var r, mem' := InsertAfter(es, k, e), LinkAfter(mem, es[k].slot, e.slot, e.cap, e.revocable, e.firstBadged);
    forall i: nat | i < |r| ensures Holds(mem', r, i) { LinkAfterHolds(mem, es, k, e, i); }
    LinkAfterTracks(mem, es, k, e);
  }

  lemma {:induction false} LinkAfterTracks(mem: Memory, es: seq<Entry>, k: nat, e: Entry)
    requires Tracked(mem, es) && k < |es| && NeighboursIn(mem, es[k].slot) && e.slot in mem
    ensures Tracked(LinkAfter(mem, es[k].slot, e.slot, e.cap, e.revocable, e.firstBadged), InsertAfter(es, k, e))
  {
    var r, mem' := InsertAfter(es, k, e), LinkAfter(mem, es[k].slot, e.slot, e.cap, e.revocable, e.firstBadged);
    forall s | s in mem' && mem'[s] != EMPTY_CTE ensures exists i: nat :: Occupies(r, i, s) {
      if s == e.slot {
        assert Occupies(r, k + 1, s);
      } else {
        var i: nat :| Occupies(es, i, s);
        assert Occupies(r, if i <= k then i else i + 1, s);
      }
    }
  }

  predicate EntriesNonNull(es: seq<Entry>) {
    forall i | 0 <= i < |es| :: !es[i].cap.Null?
  }

  /** The writes of emptySlot. */
  function Unlink(mem: Memory, s: nat): Memory
    requires NeighboursIn(mem, s)
  {
    var prev, next, fb := mem[s].prev, mem[s].next, mem[s].firstBadged;
    var m1 := if prev != 0 then mem[prev := mem[prev].(next := next)] else mem;
    var m2 := if next != 0 then m1[next := m1[next].(prev := prev)] else m1;
    var m3 := if next != 0 then m2[next := m2[next].(firstBadged := m2[next].firstBadged || fb)] else m2;
    m3[s := EMPTY_CTE]
  }

  lemma {:induction false} UnlinkHolds(mem: Memory, es: seq<Entry>, k: nat, i: nat)
    requires DistinctSlots(es) && HoldsAll(mem, es) && k < |es| && Holds(mem, es, k) && i < |es| - 1
    requires NeighboursIn(mem, es[k].slot)
    ensures Holds(Unlink(mem, es[k].slot), RemoveAt(es, k), i)
  {
    var r := RemoveAt(es, k);
    hide RemoveAt;
    var p := Past(k, i);
    assert Holds(mem, es, p);
    if HasNext(es, k) { assert Holds(mem, es, k + 1); }
    if HasPrev(es, k) { assert Holds(mem, es, k - 1); }
    assert i + 1 < |r| ==>
             r[i + 1] == if i + 1 < k then es[i + 1] else if i + 1 == k then Inherit(es[k], es[k + 1]) else es[i + 2];
    assert i > 0 ==> r[i - 1].slot == if i - 1 < k then es[i - 1].slot else es[i].slot;
  }

  lemma {:induction false} UnlinkTracks(mem: Memory, es: seq<Entry>, k: nat)
    requires Tracked(mem, es) && k < |es| && NeighboursIn(mem, es[k].slot)
    ensures Tracked(Unlink(mem, es[k].slot), RemoveAt(es, k))
  {
    var r, mem' := RemoveAt(es, k), Unlink(mem, es[k].slot);
    hide RemoveAt;
    forall s | s in mem' && mem'[s] != EMPTY_CTE ensures exists i: nat :: Occupies(r, i, s) {
      assert s in mem && mem[s] != EMPTY_CTE;
      var i: nat :| Occupies(es, i, s);
      assert Occupies(r, if i < k then i else i - 1, s);
    }
  }

  lemma {:induction false} UnlinkLinks(mem: Memory, es: seq<Entry>, k: nat)
    requires Linked(mem, es) && EntriesNonNull(es) && k < |es| && NeighboursIn(mem, es[k].slot)
    ensures Linked(Unlink(mem, es[k].slot), RemoveAt(es, k))
  {
    var r, mem' := RemoveAt(es, k), Unlink(mem, es[k].slot);
    hide RemoveAt;
    hide Holds;
    hide Unlink;
    forall i: nat | i < |r| ensures Holds(mem', r, i) { UnlinkHolds(mem, es, k, i); }
    UnlinkTracks(mem, es, k);
  }

  // ------------------------------------------------------------------------ moving, swapping

  /** The address that takes over from p when the contents of s1 and s2 trade places. */
  function Renamed(p: nat, s1: nat, s2: nat): nat {
    if p == s1 then s2 else if p == s2 then s1 else p
  }

  function SetNext(mem: Memory, p: nat, to: nat): Memory
    requires p != 0 ==> p in mem
  {
    if p == 0 then mem else mem[p := mem[p].(next := to)]
  }

  function SetPrev(mem: Memory, p: nat, to: nat): Memory
    requires p != 0 ==> p in mem
  {
    if p == 0 then mem else mem[p := mem[p].(prev := to)]
  }

  /** Links of s, where not null, stay in memory. */
  predicate LinksIn(mem: Memory, s: nat) {
    s in mem && (mem[s].next != 0 ==> mem[s].next in mem) && (mem[s].prev != 0 ==> mem[s].prev in mem)
  }

  predicate NodeLinksIn(mem: Memory, node: Cte) {
    (node.next != 0 ==> node.next in mem) && (node.prev != 0 ==> node.prev in mem)
  }

  /** Make the neighbours named by `node` point to `to`. */
  function Relink(mem: Memory, node: Cte, to: nat): Memory
    requires NodeLinksIn(mem, node)
  {
    SetPrev(SetNext(mem, node.prev, to), node.next, to)
  }

  lemma {:induction false} RelinkAt(mem: Memory, node: Cte, to: nat, x: nat)
    requires NodeLinksIn(mem, node) && x in mem && x != 0
    ensures var r := Relink(mem, node, to);
            && r.Keys == mem.Keys
            && r[x] == mem[x].(next := if x == node.prev then to else mem[x].next,
                               prev := if x == node.next then to else mem[x].prev)
  {
  }

  /** Replace the MDB node of s and keep its cap. */
  function SetNode(mem: Memory, s: nat, node: Cte): Memory
    requires s in mem
  {
    mem[s := node.(cap := mem[s].cap)]
  }

  /** The first writes of cteSwap: the caps trade places and the neighbours of s1 are linked to s2. */
  function SwapHalf(mem: Memory, cap1: Cap, s1: nat, cap2: Cap, s2: nat): (r: Memory)
    requires LinksIn(mem, s1) && LinksIn(mem, s2)
    ensures r.Keys == mem.Keys
  {
    var m1 := mem[s1 := mem[s1].(cap := cap2)];
    var m2 := m1[s2 := m1[s2].(cap := cap1)];
    Relink(m2, m2[s1], s2)
  }

  /** The writes of cteSwap, in its order. */
  function SwapMemory(mem: Memory, cap1: Cap, s1: nat, cap2: Cap, s2: nat): Memory
    requires LinksIn(mem, s1) && LinksIn(mem, s2)
  {
    var m3 := SwapHalf(mem, cap1, s1, cap2, s2);
    var mdb1, mdb2 := mem[s1].(cap := cap2), m3[s2];
    HalfLinksIn(mem, cap1, s1, cap2, s2);
    var m4 := SetNode(SetNode(m3, s1, mdb2), s2, mdb1);
    Relink(m4, mdb2, s1)
  }

  lemma HalfLinksIn(mem: Memory, cap1: Cap, s1: nat, cap2: Cap, s2: nat)
    requires LinksIn(mem, s1) && LinksIn(mem, s2)
    ensures var m3 := SwapHalf(mem, cap1, s1, cap2, s2);
            && m3.Keys == mem.Keys && NodeLinksIn(m3, m3[s2])
  {
  }

  /** What links look like anywhere in a linked memory. */
  predicate Mirrored(mem: Memory, s: nat) {
    && LinksIn(mem, s)
    && (mem[s].next != 0 ==> mem[mem[s].next].prev == s && mem[s].next != s)
    && (mem[s].prev != 0 ==> mem[mem[s].prev].next == s && mem[s].prev != s)
    && (mem[s].next != 0 ==> mem[s].next != mem[s].prev)
  }

  lemma Neighbours(mem: Memory, s: nat, x: nat)
    requires Mirrored(mem, s) && Mirrored(mem, x) && s != 0 && x != 0
    ensures LinksIn(mem, s) && LinksIn(mem, x)
    ensures (mem[x].next == s <==> mem[s].prev == x) && (mem[x].prev == s <==> mem[s].next == x)
  {
  }

  /** After the first writes: whoever linked to s1 links to s2. */
  lemma {:induction false} HalfAt(mem: Memory, cap1: Cap, s1: nat, cap2: Cap, s2: nat, x: nat)
    requires s1 != s2 && s1 != 0 && s2 != 0 && x != 0 && Mirrored(mem, s1) && LinksIn(mem, s2) && Mirrored(mem, x)
    ensures var m3 := SwapHalf(mem, cap1, s1, cap2, s2);
            && x in m3
            && m3[x] == mem[x].(cap := if x == s1 then cap2 else if x == s2 then cap1 else mem[x].cap,
                                next := if mem[x].next == s1 then s2 else mem[x].next,
                                prev := if mem[x].prev == s1 then s2 else mem[x].prev)
  {
    hide Relink;
    var m1 := mem[s1 := mem[s1].(cap := cap2)];
    var m2 := m1[s2 := m1[s2].(cap := cap1)];
    RelinkAt(m2, m2[s1], s2, x);
  }

  /** Slot s1 ends up with what s2 held, links renamed, and the other way round. */
  lemma {:induction false} SwapEnds(mem: Memory, cap1: Cap, s1: nat, cap2: Cap, s2: nat)
    requires s1 != s2 && s1 != 0 && s2 != 0 && Mirrored(mem, s1) && Mirrored(mem, s2)
    ensures var mem' := SwapMemory(mem, cap1, s1, cap2, s2);
            && s1 in mem' && s2 in mem'
            && mem'[s2] == RenamedCte(mem, cap1, s1, s2, s1) && mem'[s1] == RenamedCte(mem, cap2, s1, s2, s2)
  {
    hide Relink, SwapHalf;
    HalfAt(mem, cap1, s1, cap2, s2, s1);
    HalfAt(mem, cap1, s1, cap2, s2, s2);
    HalfLinksIn(mem, cap1, s1, cap2, s2);
    var m3 := SwapHalf(mem, cap1, s1, cap2, s2);
    var m4 := SetNode(SetNode(m3, s1, m3[s2]), s2, mem[s1].(cap := cap2));
    RelinkAt(m4, m3[s2], s1, s1);
    RelinkAt(m4, m3[s2], s1, s2);
  }

  function RenamedCte(mem: Memory, cap: Cap, s1: nat, s2: nat, x: nat): Cte
    requires x in mem
  {
    Cte(cap, Renamed(mem[x].next, s1, s2), Renamed(mem[x].prev, s1, s2), mem[x].revocable, mem[x].firstBadged)
  }

  lemma {:induction false} SwapElsewhere(mem: Memory, cap1: Cap, s1: nat, cap2: Cap, s2: nat, x: nat)
    requires s1 != s2 && s1 != 0 && s2 != 0 && x != 0 && x != s1 && x != s2
    requires Mirrored(mem, s1) && Mirrored(mem, s2) && Mirrored(mem, x)
    ensures var mem' := SwapMemory(mem, cap1, s1, cap2, s2);
            x in mem' && mem'[x] == RenamedCte(mem, mem[x].cap, s1, s2, x)
  {
    Neighbours(mem, s1, x);
    Neighbours(mem, s2, x);
    hide Relink, SwapHalf, Mirrored;
    HalfAt(mem, cap1, s1, cap2, s2, x);
    HalfAt(mem, cap1, s1, cap2, s2, s2);
    HalfLinksIn(mem, cap1, s1, cap2, s2);
    var m3 := SwapHalf(mem, cap1, s1, cap2, s2);
    RelinkAt(SetNode(SetNode(m3, s1, m3[s2]), s2, mem[s1].(cap := cap2)), m3[s2], s1, x);
  }

  /** cteSwap exchanges two slots whatever their position: apart, adjacent in either order, or one empty. */
  lemma {:induction false} SwapIsRenaming(mem: Memory, cap1: Cap, s1: nat, cap2: Cap, s2: nat, x: nat)
    requires s1 != s2 && s1 != 0 && s2 != 0 && x != 0
    requires Mirrored(mem, s1) && Mirrored(mem, s2) && Mirrored(mem, x)
    ensures var mem' := SwapMemory(mem, cap1, s1, cap2, s2);
            var cap := if x == s1 then cap1 else if x == s2 then cap2 else mem[x].cap;
            Renamed(x, s1, s2) in mem' && mem'[Renamed(x, s1, s2)] == RenamedCte(mem, cap, s1, s2, x)
  {
    if x == s1 || x == s2 { SwapEnds(mem, cap1, s1, cap2, s2); } else { SwapElsewhere(mem, cap1, s1, cap2, s2, x); }
  }

  function SwapEntry(e: Entry, cap1: Cap, s1: nat, cap2: Cap, s2: nat): Entry {
    if e.slot == s1 then e.(slot := s2, cap := cap1)
    else if e.slot == s2 then e.(slot := s1, cap := cap2)
    else e
  }

  /** The lists after the two slots trade places: same order, same flags, same history. */
  function SwapEntries(es: seq<Entry>, cap1: Cap, s1: nat, cap2: Cap, s2: nat): (r: seq<Entry>)
    ensures |r| == |es| && forall i | 0 <= i < |es| :: r[i] == SwapEntry(es[i], cap1, s1, cap2, s2)
  {
    seq(|es|, i requires 0 <= i < |es| => SwapEntry(es[i], cap1, s1, cap2, s2))
  }

  lemma {:induction false} LinkedIsMirrored(mem: Memory, es: seq<Entry>, x: nat)
    requires Linked(mem, es) && x in mem
    ensures Mirrored(mem, x)
  {
    if mem[x] != EMPTY_CTE {
      var i: nat :| Occupies(es, i, x);
      assert Holds(mem, es, i);
      if HasNext(es, i) { assert Holds(mem, es, i + 1); }
      if HasPrev(es, i) { assert Holds(mem, es, i - 1); }
    }
  }

  lemma {:induction false} SwappedAt(mem: Memory, es: seq<Entry>, cap1: Cap, s1: nat, cap2: Cap, s2: nat, x: nat)
    requires Linked(mem, es) && 0 !in mem && s1 in mem && s2 in mem && s1 != s2 && x in mem
    requires LinksIn(mem, s1) && LinksIn(mem, s2)
    ensures var mem' := SwapMemory(mem, cap1, s1, cap2, s2);
            var cap := if x == s1 then cap1 else if x == s2 then cap2 else mem[x].cap;
            mem'.Keys == mem.Keys && mem'[Renamed(x, s1, s2)] == RenamedCte(mem, cap, s1, s2, x)
  {
    hide Linked;
    LinkedIsMirrored(mem, es, s1);
    LinkedIsMirrored(mem, es, s2);
    LinkedIsMirrored(mem, es, x);
    SwapIsRenaming(mem, cap1, s1, cap2, s2, x);
    assert SwapMemory(mem, cap1, s1, cap2, s2).Keys == mem.Keys;
  }

  lemma {:induction false} SwappedNode(es: seq<Entry>, r: seq<Entry>, s1: nat, s2: nat, i: nat)
    requires s1 != 0 && s2 != 0 && i < |es| == |r|
    requires forall i | 0 <= i < |es| :: r[i].slot == Renamed(es[i].slot, s1, s2) && r[i].head == es[i].head
    ensures NodeAt(r, i).next == Renamed(NodeAt(es, i).next, s1, s2)
    ensures NodeAt(r, i).prev == Renamed(NodeAt(es, i).prev, s1, s2)
  {
  }

  lemma {:induction false} SwapHolds(mem: Memory, es: seq<Entry>, cap1: Cap, s1: nat, cap2: Cap, s2: nat, i: nat)
    requires Linked(mem, es) && 0 !in mem && s1 in mem && s2 in mem && s1 != s2 && i < |es|
    requires LinksIn(mem, s1) && LinksIn(mem, s2)
    ensures Holds(SwapMemory(mem, cap1, s1, cap2, s2), SwapEntries(es, cap1, s1, cap2, s2), i)
  {
    hide Linked, SwapMemory, LinksIn;
    LinkedHolds(mem, es, i);
    SwappedSlots(es, cap1, s1, cap2, s2);
    SwappedNode(es, SwapEntries(es, cap1, s1, cap2, s2), s1, s2, i);
    SwappedAt(mem, es, cap1, s1, cap2, s2, es[i].slot);
    assert SwapEntries(es, cap1, s1, cap2, s2)[i] == SwapEntry(es[i], cap1, s1, cap2, s2);
  }

  lemma {:induction false} LinkedHolds(mem: Memory, es: seq<Entry>, i: nat)
    requires Linked(mem, es) && i < |es|
    ensures Holds(mem, es, i)
  {
  }

  lemma {:induction false} SwappedSlots(es: seq<Entry>, cap1: Cap, s1: nat, cap2: Cap, s2: nat)
    ensures var r := SwapEntries(es, cap1, s1, cap2, s2);
            |r| == |es| && forall i | 0 <= i < |es| ::
              r[i].slot == Renamed(es[i].slot, s1, s2) && r[i].head == es[i].head
  {
    hide SwapEntries;
    var r := SwapEntries(es, cap1, s1, cap2, s2);
    forall i | 0 <= i < |es|
      ensures r[i].slot == Renamed(es[i].slot, s1, s2) && r[i].head == es[i].head
    {
      assert r[i] == SwapEntry(es[i], cap1, s1, cap2, s2);
    }
  }

  lemma {:induction false} SwapTracks(mem: Memory, es: seq<Entry>, cap1: Cap, s1: nat, cap2: Cap, s2: nat)
    requires Linked(mem, es) && 0 !in mem && s1 in mem && s2 in mem && s1 != s2
    requires LinksIn(mem, s1) && LinksIn(mem, s2)
    requires mem[s1] == EMPTY_CTE ==> cap1.Null?
    requires mem[s2] == EMPTY_CTE ==> cap2.Null?
    ensures Tracked(SwapMemory(mem, cap1, s1, cap2, s2), SwapEntries(es, cap1, s1, cap2, s2))
  {
    var r, mem' := SwapEntries(es, cap1, s1, cap2, s2), SwapMemory(mem, cap1, s1, cap2, s2);
    assert Tracked(mem, es);
    hide Linked;
    hide SwapMemory;
    forall s | s in mem' && mem'[s] != EMPTY_CTE ensures exists i: nat :: Occupies(r, i, s) {
      var x := Renamed(s, s1, s2);
      SwappedAt(mem, es, cap1, s1, cap2, s2, s1);
      SwappedAt(mem, es, cap1, s1, cap2, s2, x);
      var i: nat :| Occupies(es, i, x);
      assert Occupies(r, i, s);
    }
  }

  /** cteSwap exchanges two slots in the lists and leaves the order of the caps as it was. */
  lemma {:induction false} SwapLinks(mem: Memory, es: seq<Entry>, cap1: Cap, s1: nat, cap2: Cap, s2: nat)
    requires Linked(mem, es) && 0 !in mem && s1 in mem && s2 in mem && s1 != s2
    requires LinksIn(mem, s1) && LinksIn(mem, s2)
    requires mem[s1] == EMPTY_CTE ==> cap1.Null?
    requires mem[s2] == EMPTY_CTE ==> cap2.Null?
    ensures Linked(SwapMemory(mem, cap1, s1, cap2, s2), SwapEntries(es, cap1, s1, cap2, s2))
  {
    var r := SwapEntries(es, cap1, s1, cap2, s2);
    forall i: nat | i < |es| ensures Holds(SwapMemory(mem, cap1, s1, cap2, s2), r, i) {
      SwapHolds(mem, es, cap1, s1, cap2, s2, i);
    }
    SwapTracks(mem, es, cap1, s1, cap2, s2);
    hide SwapMemory;
    hide Holds;
    forall i, j | 0 <= i < |r| && 0 <= j < |r| && i != j ensures r[i].slot != r[j].slot && r[i].slot != 0 {
      assert r[i].slot == Renamed(es[i].slot, s1, s2) && r[j].slot == Renamed(es[j].slot, s1, s2);
    }
    assert forall i | 0 <= i < |r| :: r[i].slot == Renamed(es[i].slot, s1, s2);
  }

  /** The writes of cteMove, in its order. */
  function MoveMemory(mem: Memory, cap: Cap, src: nat, dest: nat): Memory
    requires LinksIn(mem, src) && dest in mem
  {
    var mdb := mem[src];
    var m1 := mem[dest := mdb.(cap := cap)];
    var m2 := m1[src := EMPTY_CTE];
    SetPrev(SetNext(m2, mdb.prev, dest), mdb.next, dest)
  }

  /** cteMove is cteSwap with an empty slot. */
  lemma {:induction false} MoveIsSwap(mem: Memory, cap: Cap, src: nat, dest: nat)
    requires src != dest && src != 0 && dest != 0 && dest in mem && mem[dest] == EMPTY_CTE && Mirrored(mem, src)
    ensures MoveMemory(mem, cap, src, dest) == SwapMemory(mem, cap, src, Null, dest)
  {
    var a, b := MoveMemory(mem, cap, src, dest), SwapMemory(mem, cap, src, Null, dest);
    assert a.Keys == mem.Keys && b.Keys == mem.Keys;
    forall x | x in mem ensures a[x] == b[x] { }
  }
}
