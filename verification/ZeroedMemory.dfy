/**
 * Untyped memory that is not handed out yet is zero: whatever objects are created, written to and deleted, an object
 * is only ever created in memory that holds nothing of what was there before, and the clearing this takes never
 * reaches an object that a cap names.
 */
module ZeroedMemory {
  import opened Words
  import opened Caps
  import opened MdbList
  import opened MdbSteps
  import opened MdbOps
  import opened Retype
  import opened MdbRuns

  /** The byte at each address. */
  type Bytes = nat -> nat

  predicate Inside(c: Cap, a: nat) {
    IsPhysical(c) && ObjectBase(c) <= a < ObjectEnd(c)
  }

  /** The part of an untyped from its free index on. */
  predicate InFree(c: Cap, a: nat) {
    c.Untyped? && c.ptr + FreeOffset(c) <= a < c.ptr + Pow2(c.bits)
  }

  /** a belongs to an object in use. */
  predicate InUse(c: Cap, a: nat) {
    Inside(c, a) && !c.Untyped?
  }

  ghost predicate ZeroFrom(c: Cap, b: Bytes) {
    forall a | InFree(c, a) :: b(a) == 0
  }

  ghost predicate FreeIsZero(es: seq<Entry>, b: Bytes) {
    forall i | 0 <= i < |es| :: ZeroFrom(es[i].cap, b)
  }

  function Cleared(b: Bytes, lo: nat, hi: nat): Bytes {
    (a: nat) => if lo <= a < hi then 0 else b(a)
  }

  function Stored(b: Bytes, at: nat, byte: nat): Bytes {
    (a: nat) => if a == at then byte else b(a)
  }

  // ------------------------------------------------------------------ objects and free memory

  /** An object in use inside an untyped was made from that, below its free index. */
  lemma UseIsDerived(m: Mdb, i: nat, j: nat, a: nat)
    requires Inv(m) && i < |m.es| && j < |m.es| && m.es[i].cap.Untyped?
    requires Inside(m.es[i].cap, a) && InUse(m.es[j].cap, a)
    ensures Derived(m.es, i, j) && a < m.es[i].cap.ptr + FreeOffset(m.es[i].cap)
  {
    var u, c := m.es[i].cap, m.es[j].cap;
    assert Overlap(u, c) && ObjectOf(u) == NoObject && !DerivedKind(c, u);
    assert Derived(m.es, i, j);
    assert DerivedKind(u, c);
  }

  /** The free part of an untyped holds no byte of an object in use, whichever cap names that. */
  lemma UseIsNotFree(m: Mdb, i: nat, j: nat, a: nat)
    requires Inv(m) && i < |m.es| && j < |m.es| && InUse(m.es[j].cap, a)
    ensures !InFree(m.es[i].cap, a)
  {
    hide Inv;
    if m.es[i].cap.Untyped? && Inside(m.es[i].cap, a) { UseIsDerived(m, i, j, a); }
  }

  /** An untyped without children shares no byte with an object in use. */
  lemma ChildlessIsUnused(m: Mdb, i: nat, j: nat, a: nat)
    requires Inv(m) && i < |m.es| && j < |m.es| && m.es[i].cap.Untyped?
    requires Inside(m.es[i].cap, a) && InUse(m.es[j].cap, a)
    ensures !NoChildrenAt(m.es, i)
  {
    UseIsDerived(m, i, j, a);
    assert EntryOk(m.es[i]);
    hide Inv, Inside, InUse;
    NoChildrenMeansNoneDerived(m, i);
  }

  // ------------------------------------------------------------------ runs with memory

  /** An operation on caps, or a store into an object in use by whoever holds a cap to it. */
  datatype Action = On(step: Step) | Store(obj: nat, at: nat, byte: nat)

  /** Boot makes its untypeds full, so that they are cleared before their first use. */
  predicate BootsFull(s: Step) {
    s.Boot? && s.cap.Untyped? ==> Pow2(s.cap.bits) <= FreeOffset(s.cap)
  }

  predicate Possible(m: Mdb, act: Action) {
    match act
    case On(s) => Enabled(m, s) && BootsFull(s)
    case Store(j, a, _) => j < |m.es| && InUse(m.es[j].cap, a)
  }

  function NextLists(m: Mdb, act: Action): Mdb
    requires Possible(m, act)
  {
    match act
    case On(s) => Apply(m, s)
    case Store(_, _, _) => m
  }

  /** What an action does to memory: a retype of an untyped without children resets that first. */
  function NextBytes(m: Mdb, b: Bytes, act: Action): Bytes
    requires Possible(m, act)
  {
    match act
    case On(RetypeStep(k, _, _, _, _)) =>
      var u := m.es[k].cap;
      if NoChildrenAt(m.es, k) then Cleared(b, u.ptr, u.ptr + FreeOffset(u)) else b
    case On(Reset(k, free)) =>
      var u := m.es[k].cap;
      Cleared(b, u.ptr + free * 16, u.ptr + FreeOffset(u))
    case On(_) => b
    case Store(_, a, v) => Stored(b, a, v)
  }

  // ------------------------------------------------------------------ every action keeps free memory zero

  lemma InsertKeepsZero(m: Mdb, k: nat, slot: nat, cap: Cap, b: Bytes)
    requires FreeIsZero(m.es, b) && k < |m.es| && EntryOk(m.es[k]) && MayInsert(m, k, cap)
    ensures FreeIsZero(CteInsert(m, k, slot, cap).es, b)
  {
    hide ZeroFrom, NoChildrenAt;
    var r, u := CteInsert(m, k, slot, cap).es, SourceAfterInsert(m.es[k].cap, cap);
    assert ZeroFrom(m.es[k].cap, b);
    FullIsZero(u, b);
    NoFreePart(cap, b);
    NoFreePart(u, b);
    forall i | 0 <= i < |r| ensures ZeroFrom(r[i].cap, b) {
      if i != k && i != k + 1 { assert ZeroFrom(m.es[Before(k, i)].cap, b); }
    }
  }

  lemma NoFreePart(c: Cap, b: Bytes)
    ensures !c.Untyped? ==> ZeroFrom(c, b)
  {
  }

  lemma FullIsZero(c: Cap, b: Bytes)
    ensures c.Untyped? && Pow2(c.bits) <= FreeOffset(c) ==> ZeroFrom(c, b)
  {
  }

  /** Caps to objects in zeroed memory; an untyped among them starts out with all of it free. */
  lemma {:induction false} CreateKeepsZero(m: Mdb, k: nat, slots: seq<nat>, caps: seq<Cap>, lo: nat, hi: nat, b: Bytes)
    requires FreeIsZero(m.es, b) && k < |m.es| && |slots| == |caps| && Ascending(caps, lo, hi)
    requires forall a | lo <= a < hi :: b(a) == 0
    ensures FreeIsZero(CreateNewObjects(m, k, slots, caps).es, b)
    decreases |caps|
  {
    if caps != [] {
      var r := InsertNewCap(m, k, slots[0], caps[0]);
      assert ZeroFrom(caps[0], b);
      hide ZeroFrom;
      forall i | 0 <= i < |r.es| ensures ZeroFrom(r.es[i].cap, b) {
        if i != k + 1 { assert ZeroFrom(m.es[Before(k, i)].cap, b); }
      }
      CreateKeepsZero(r, k, slots[1..], caps[1..], ObjectEnd(caps[0]), hi, b);
    }
  }

  lemma WithCapKeepsZero(es: seq<Entry>, k: nat, c: Cap, b: Bytes)
    requires FreeIsZero(es, b) && k < |es| && ZeroFrom(c, b)
    ensures FreeIsZero(WithCap(es, k, c), b)
  {
    hide ZeroFrom;
    var r := WithCap(es, k, c);
    forall i | 0 <= i < |r| ensures ZeroFrom(r[i].cap, b) { assert ZeroFrom(es[i].cap, b); }
  }

  lemma ClearingKeepsZero(es: seq<Entry>, b: Bytes, lo: nat, hi: nat)
    requires FreeIsZero(es, b)
    ensures FreeIsZero(es, Cleared(b, lo, hi))
  {
    forall i | 0 <= i < |es| ensures ZeroFrom(es[i].cap, Cleared(b, lo, hi)) { assert ZeroFrom(es[i].cap, b); }
  }

  /** The memory a retype takes is zero: it was free, or it has just been cleared. */
  lemma RetypedIsZero(m: Mdb, b: Bytes, s: Step, a: nat)
    requires s.RetypeStep? && Enabled(m, s) && FreeIsZero(m.es, b)
    requires s.base <= a < m.es[s.src].cap.ptr + Pow2(m.es[s.src].cap.bits)
    ensures NextBytes(m, b, On(s))(a) == 0
  {
    assert ZeroFrom(m.es[s.src].cap, b);
    hide NoChildrenAt;
  }

  lemma RestIsZero(u: Cap, base: nat, top: nat, b: Bytes)
    requires u.Untyped? && u.ptr <= base <= top && u.ptr % 16 == 0 && top % 16 == 0
    requires forall a | base <= a < u.ptr + Pow2(u.bits) :: b(a) == 0
    ensures ZeroFrom(SetFree(u, (top - u.ptr) / 16), b)
  {
    ChunkedDifference(top, u.ptr);
  }

  lemma RetypedListsZero(m: Mdb, s: Step, b: Bytes)
    requires s.RetypeStep? && s.src < |m.es| && m.es[s.src].cap.Untyped? && m.es[s.src].cap.ptr <= s.top
    requires |s.slots| == |s.caps| && Ascending(s.caps, s.base, s.top) && FreeIsZero(m.es, b)
    requires ZeroFrom(SetFree(m.es[s.src].cap, (s.top - m.es[s.src].cap.ptr) / 16), b)
    requires forall a | s.base <= a < s.top :: b(a) == 0
    ensures FreeIsZero(RetypeUntyped(m, s.src, s.slots, s.caps, s.top).es, b)
  {
    hide ZeroFrom, FreeIsZero, Ascending, WithCap, CreateNewObjects;
    var k, u := s.src, m.es[s.src].cap;
    var c := SetFree(u, (s.top - u.ptr) / 16);
    WithCapKeepsZero(m.es, k, c, b);
    SameLength(m.es, k, c);
    CreateKeepsZero(m.(es := WithCap(m.es, k, c)), k, s.slots, s.caps, s.base, s.top, b);
  }

  lemma SameLength(es: seq<Entry>, k: nat, c: Cap)
    requires k < |es|
    ensures |WithCap(es, k, c)| == |es|
  {
  }

  lemma RetypeKeepsZero(m: Mdb, b: Bytes, s: Step)
    requires s.RetypeStep? && Enabled(m, s) && FreeIsZero(m.es, b)
    ensures FreeIsZero(Apply(m, s).es, NextBytes(m, b, On(s)))
  {
    var u, b' := m.es[s.src].cap, NextBytes(m, b, On(s));
    forall a | s.base <= a < u.ptr + Pow2(u.bits) ensures b'(a) == 0 { RetypedIsZero(m, b, s, a); }
    ClearingKeepsZero(m.es, b, u.ptr, u.ptr + FreeOffset(u));
    hide ZeroFrom, FreeIsZero, NoChildrenAt, Ascending, RetypeUntyped, Cleared;
    RestIsZero(u, s.base, s.top, b');
    RetypedListsZero(m, s, b');
  }

  lemma ResetKeepsZero(m: Mdb, b: Bytes, s: Step)
    requires s.Reset? && Enabled(m, s) && FreeIsZero(m.es, b)
    ensures FreeIsZero(Apply(m, s).es, NextBytes(m, b, On(s)))
  {
    var u, b' := m.es[s.src].cap, NextBytes(m, b, On(s));
    assert ZeroFrom(u, b);
    assert ZeroFrom(SetFree(u, s.free), b');
    ClearingKeepsZero(m.es, b, u.ptr + s.free * 16, u.ptr + FreeOffset(u));
    WithCapKeepsZero(m.es, s.src, SetFree(u, s.free), b');
  }

  lemma StoreKeepsZero(m: Mdb, b: Bytes, j: nat, at: nat, byte: nat)
    requires Inv(m) && j < |m.es| && InUse(m.es[j].cap, at) && FreeIsZero(m.es, b)
    ensures FreeIsZero(m.es, Stored(b, at, byte))
  {
    hide Inv, InUse, InFree;
    forall i | 0 <= i < |m.es| ensures ZeroFrom(m.es[i].cap, Stored(b, at, byte)) {
      assert ZeroFrom(m.es[i].cap, b);
      UseIsNotFree(m, i, j, at);
    }
  }

  /** No action makes free memory dirty. */
  lemma ActionKeepsZero(m: Mdb, b: Bytes, act: Action)
    requires Inv(m) && FreeIsZero(m.es, b) && Possible(m, act)
    ensures FreeIsZero(NextLists(m, act).es, NextBytes(m, b, act))
  {
    match act {
      case Store(j, at, byte) => StoreKeepsZero(m, b, j, at, byte);
      case On(s) =>
        match s {
          case Boot(_, cap) =>
            FullIsZero(cap, b);
            NoFreePart(cap, b);
            hide ZeroFrom;
            forall i | 0 <= i <= |m.es| ensures ZeroFrom(Apply(m, s).es[i].cap, b) {
              if i < |m.es| { assert ZeroFrom(m.es[i].cap, b); }
            }
          case Insert(k, slot, cap) =>
            assert EntryOk(m.es[k]);
            InsertKeepsZero(m, k, slot, cap, b);
          case RetypeStep(_, _, _, _, _) => RetypeKeepsZero(m, b, s);
          case Reset(_, _) => ResetKeepsZero(m, b, s);
          case Rename(r) => RenameKeepsZero(m.es, r, b);
          case Zombify(k, z) => WithCapKeepsZero(m.es, k, z, b);
          case Remove(k) => RemoveKeepsZero(m, k, b);
        }
    }
  }

  lemma RenameKeepsZero(es: seq<Entry>, r: seq<Entry>, b: Bytes)
    requires FreeIsZero(es, b) && IsRenaming(es, r)
    ensures FreeIsZero(r, b)
  {
    forall i | 0 <= i < |r| ensures ZeroFrom(r[i].cap, b) {
      assert ZeroFrom(es[i].cap, b) && IsRelabelling(es[i].cap, r[i].cap);
    }
  }

  lemma RemoveKeepsZero(m: Mdb, k: nat, b: Bytes)
    requires FreeIsZero(m.es, b) && k < |m.es|
    ensures FreeIsZero(Removed(m, k).es, b)
  {
    hide ZeroFrom;
    var r := Removed(m, k).es;
    forall i | 0 <= i < |r| ensures ZeroFrom(r[i].cap, b) { assert ZeroFrom(m.es[Past(k, i)].cap, b); }
  }

  // ------------------------------------------------------------------ objects in use

  /** Clearing for a retype or a reset reaches no object in use. */
  lemma FreeIsInside(m: Mdb, k: nat)
    requires Inv(m) && k < |m.es| && m.es[k].cap.Untyped?
    ensures FreeOffset(m.es[k].cap) <= Pow2(m.es[k].cap.bits)
  {
    assert EntryOk(m.es[k]);
  }

  lemma ClearingSparesUse(m: Mdb, b: Bytes, s: Step, j: nat, a: nat)
    requires Inv(m) && Enabled(m, s) && BootsFull(s) && j < |m.es| && InUse(m.es[j].cap, a)
    ensures NextBytes(m, b, On(s))(a) == b(a)
  {
    hide Inv, NoChildrenAt, Ascending;
    if s.RetypeStep? || s.Reset? {
      var u := m.es[s.src].cap;
      FreeIsInside(m, s.src);
      if Inside(u, a) {
        UseIsDerived(m, s.src, j, a);
        ChildlessIsUnused(m, s.src, j, a);
      }
    }
  }

  /** A byte of an object in use changes only by a store through a cap to that very object. */
  lemma OnlyOwnStores(m: Mdb, b: Bytes, act: Action, j: nat, a: nat)
    requires Inv(m) && Possible(m, act) && j < |m.es| && InUse(m.es[j].cap, a)
    ensures NextBytes(m, b, act)(a) == b(a) || (act.Store? && (act.obj == j || SameObjectAt(m.es, act.obj, j)))
  {
    match act {
      case On(s) => ClearingSparesUse(m, b, s, j, a);
      case Store(o, at, _) => if at == a { assert Overlap(m.es[o].cap, m.es[j].cap); }
    }
  }

  // ------------------------------------------------------------------ whole runs

  predicate IsHistory(m: Mdb, acts: seq<Action>)
    decreases |acts|
  {
    acts == [] || (Possible(m, acts[0]) && IsHistory(NextLists(m, acts[0]), acts[1..]))
  }

  function FinalLists(m: Mdb, acts: seq<Action>): Mdb
    requires IsHistory(m, acts)
    decreases |acts|
  {
    if acts == [] then m else FinalLists(NextLists(m, acts[0]), acts[1..])
  }

  function FinalBytes(m: Mdb, b: Bytes, acts: seq<Action>): Bytes
    requires IsHistory(m, acts)
    decreases |acts|
  {
    if acts == [] then b else FinalBytes(NextLists(m, acts[0]), NextBytes(m, b, acts[0]), acts[1..])
  }

  lemma {:induction false} HistoryKeepsZero(m: Mdb, b: Bytes, acts: seq<Action>)
    requires Inv(m) && FreeIsZero(m.es, b) && IsHistory(m, acts)
    ensures Inv(FinalLists(m, acts)) && FreeIsZero(FinalLists(m, acts).es, FinalBytes(m, b, acts))
    decreases |acts|
  {
    hide Inv, FreeIsZero, Possible, NextBytes;
    if acts != [] {
      NextKeepsInv(m, acts[0]);
      ActionKeepsZero(m, b, acts[0]);
      HistoryKeepsZero(NextLists(m, acts[0]), NextBytes(m, b, acts[0]), acts[1..]);
    }
  }

  lemma NextKeepsInv(m: Mdb, act: Action)
    requires Inv(m) && Possible(m, act)
    ensures Inv(NextLists(m, act))
  {
    hide Inv, Apply, Enabled;
    if act.On? { StepKeepsInv(m, act.step); }
  }

  /**
   * Whatever memory held at boot and whatever has been made, written and deleted since: the memory in which a retype
   * makes its objects is zero, and each of the new objects lies in it.
   */
  lemma ObjectsStartZeroed(b0: Bytes, acts: seq<Action>, s: Step, a: nat)
    requires IsHistory(Mdb([], 0, {}), acts) && s.RetypeStep? && Enabled(FinalLists(Mdb([], 0, {}), acts), s)
    requires exists i :: 0 <= i < |s.caps| && Inside(s.caps[i], a)
    ensures NextBytes(FinalLists(Mdb([], 0, {}), acts), FinalBytes(Mdb([], 0, {}), b0, acts), On(s))(a) == 0
  {
    var m := FinalLists(Mdb([], 0, {}), acts);
    EmptyInv();
    HistoryKeepsZero(Mdb([], 0, {}), b0, acts);
    hide Inv, FreeIsZero, IsHistory, FinalLists, FinalBytes, NextBytes;
    var i :| 0 <= i < |s.caps| && Inside(s.caps[i], a);
    AscendingInside(s.caps, s.base, s.top, i);
    RetypedIsZero(m, FinalBytes(Mdb([], 0, {}), b0, acts), s, a);
  }

  lemma {:induction false} AscendingInside(caps: seq<Cap>, lo: nat, hi: nat, i: nat)
    requires Ascending(caps, lo, hi) && i < |caps|
    ensures lo <= ObjectBase(caps[i]) && ObjectEnd(caps[i]) <= hi
    decreases |caps|
  {
    if i > 0 { AscendingInside(caps[1..], ObjectEnd(caps[0]), hi, i - 1); }
  }
}
