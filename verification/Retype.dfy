/**
 * Retyping untyped memory: where decodeUntypedInvocation places new objects, and why no other cap in
 * the system refers to that memory.
 */
module Retype {
  import opened Words
  import opened Arith
  import opened Caps
  import opened MdbList
  import opened MdbSteps
  import opened MdbOps

  datatype ObjectType =
    | TcbObject | EndpointObject | NotificationObject | CapTableObject
    | UntypedObject | SchedContextObject | ReplyObject

  function ObjectSizeBits(t: ObjectType, userSize: nat): nat {
    match t
    case TcbObject => TCB_BITS
    case EndpointObject => ENDPOINT_BITS
    case NotificationObject => NOTIFICATION_BITS
    case CapTableObject => SLOT_BITS + userSize
    case UntypedObject => userSize
    case SchedContextObject => userSize
    case ReplyObject => REPLY_BITS
  }

  /** createObject; `base` leaves room for the object below the top of the address space. */
  function CreateObject(t: ObjectType, base: Word, userSize: nat): Cap
    requires base + Pow2(ObjectSizeBits(t, userSize)) <= WORD
  {
    match t
    case TcbObject => assert Pow2(TCB_BITS) == 2048 by { Pow2OfTcb(); } Thread(base + 1024)
    case EndpointObject => Endpoint(base, 0, true, true, true, true)
    case NotificationObject => Notification(base, 0, true, true)
    case CapTableObject => CNode(base, userSize, 0, 0)
    case UntypedObject => Untyped(base, userSize, 0)
    case SchedContextObject => SchedContext(base, userSize)
    case ReplyObject => Reply(base, true)
  }

  lemma {:induction false} Pow2OfTcb()
    ensures Pow2(TCB_BITS) == 2048
  {
    assert Pow2(5) == 32;
    Pow2Add(5, 6);
  }

  lemma {:induction false} CreatedObject(t: ObjectType, base: Word, userSize: nat)
    requires base + Pow2(ObjectSizeBits(t, userSize)) <= WORD
    requires t.TcbObject? ==> base % 2048 == 0
    requires t.UntypedObject? ==> userSize >= MIN_UNTYPED_BITS && base % 16 == 0 && IsAligned(base, userSize)
    ensures var c := CreateObject(t, base, userSize);
            && IsNewObject(c) && IsPhysical(c) && WellFormed(c)
            && ObjectBase(c) == base && ObjectEnd(c) == base + Pow2(ObjectSizeBits(t, userSize))
  {
    Pow2OfTcb();
  }

  /** The type of object that a cap made by createObject names, read from the cap. */
  function TypeOf(c: Cap): ObjectType
    requires IsNewObject(c)
  {
    match c
    case Thread(_) => TcbObject
    case Endpoint(_, _, _, _, _, _) => EndpointObject
    case Notification(_, _, _, _) => NotificationObject
    case CNode(_, _, _, _) => CapTableObject
    case Untyped(_, _, _) => UntypedObject
    case SchedContext(_, _) => SchedContextObject
    case Reply(_, _) => ReplyObject
  }

  /** The rights that there are for objects of a type. */
  function EveryRight(t: ObjectType): set<Right> {
    match t
    case EndpointObject => {Write, Read, Grant, GrantReply}
    case NotificationObject => {Write, Read}
    case ReplyObject => {Grant}
    case _ => {}
  }

  /** A cap with every right to a whole object of type t at that address; a thread's block is its upper half. */
  predicate NamesNew(c: Cap, t: ObjectType, userSize: nat, base: nat) {
    && IsNewObject(c) && TypeOf(c) == t && RightsOf(c) == EveryRight(t)
    && ObjectBase(c) == base && SizeBits(c) == ObjectSizeBits(t, userSize)
    && (c.Thread? ==> c.ptr == base + Pow2(TCB_BITS - 1))
  }

  /** createObject makes a cap to what was asked for. */
  lemma CreatedAsAsked(t: ObjectType, base: Word, userSize: nat)
    requires base + Pow2(ObjectSizeBits(t, userSize)) <= WORD
    requires t.TcbObject? ==> base % 2048 == 0
    ensures NamesNew(CreateObject(t, base, userSize), t, userSize, base)
  {
    Pow2OfTcb();
    assert Pow2(TCB_BITS) == 2 * Pow2(TCB_BITS - 1);
  }

  // ------------------------------------------------------------------ choosing the memory

  datatype Placement = NotEnoughMemory(bytesLeft: nat) | Place(base: nat)

  /** The least multiple of Pow2(bits) that is at least x. */
  function AlignUp(x: nat, bits: nat): (r: nat)
    ensures x <= r < x + Pow2(bits) && r % Pow2(bits) == 0
  {
    var s := Pow2(bits);
    QuotientRemainder(x + s - 1, s);
    MultipleModulo((x + s - 1) / s, s);
    (x + s - 1) / s * s
  }

  /** decodeUntypedInvocation: the free index counts only while there are children. */
  function StartOffset(noChildren: bool, u: Cap): nat
    requires u.Untyped?
  {
    if noChildren then 0 else FreeOffset(u)
  }

  function DecodeRetype(noChildren: bool, u: Cap, sizeBits: nat, count: nat): Placement
    requires u.Untyped? && FreeOffset(u) <= Pow2(u.bits)
  {
    var start := StartOffset(noChildren, u);
    var left := Pow2(u.bits) - start;
    if left / Pow2(sizeBits) < count then NotEnoughMemory(left)
    else Place(AlignUp(u.ptr + start, sizeBits))
  }

  /** Between x and a multiple e of s there is still room for n*s after aligning x up to a. */
  lemma {:induction false} MultiplesFit(x: nat, e: nat, a: nat, s: nat, n: nat)
    requires s > 0 && x <= a < x + s && a % s == 0 && e % s == 0 && x + n * s <= e
    ensures a + n * s <= e
  {
    QuotientRemainder(a, s);
    QuotientRemainder(e, s);
    var qa, qe := a / s, e / s;
    MulSum(qa, n, s);
    if qe < qa + n {
      MulLe(qe + 1, qa + n, s);
      MulSum(qe, 1, s);
    }
  }

  lemma {:induction false} AlignmentOfEnd(ptr: nat, bits: nat, sizeBits: nat)
    requires sizeBits <= bits && ptr % Pow2(bits) == 0
    ensures (ptr + Pow2(bits)) % Pow2(sizeBits) == 0
  {
    var s, t := Pow2(sizeBits), Pow2(bits - sizeBits);
    Pow2Add(bits - sizeBits, sizeBits);
    QuotientRemainder(ptr, Pow2(bits));
    var q := ptr / Pow2(bits);
    MulSum(q, 1, t * s);
    MulAssoc(q + 1, t, s);
    MulNonNegative(q + 1, t);
    MultipleModulo((q + 1) * t, s);
  }

  /**
   * If enough bytes are left, the objects also fit after aligning the first one up, and they lie
   * between the free offset and the end of the untyped.
   */
  lemma {:induction false} PlacementFits(noChildren: bool, u: Cap, sizeBits: nat, count: nat)
    requires u.Untyped? && FreeOffset(u) <= Pow2(u.bits) && u.ptr % Pow2(u.bits) == 0 && count >= 1
    requires DecodeRetype(noChildren, u, sizeBits, count).Place?
    ensures var base := DecodeRetype(noChildren, u, sizeBits, count).base;
            && base % Pow2(sizeBits) == 0
            && u.ptr + StartOffset(noChildren, u) <= base
            && base + count * Pow2(sizeBits) <= u.ptr + Pow2(u.bits)
  {
    var start, s := StartOffset(noChildren, u), Pow2(sizeBits);
    DivideAtLeast(Pow2(u.bits) - start, s, count);
    MulLe(1, count, s);
    if sizeBits > u.bits { Pow2Monotone(u.bits + 1, sizeBits); }
    AlignmentOfEnd(u.ptr, u.bits, sizeBits);
    MultiplesFit(u.ptr + start, u.ptr + Pow2(u.bits), AlignUp(u.ptr + start, sizeBits), s, count);
  }

  /** There is room for so many objects at base: aligned, not below what is in use, and within the untyped. */
  predicate HasRoom(noChildren: bool, u: Cap, sizeBits: nat, count: nat, base: nat)
    requires u.Untyped?
  {
    && base % Pow2(sizeBits) == 0 && base + count * Pow2(sizeBits) <= u.ptr + Pow2(u.bits)
    && (if noChildren then u.ptr else u.ptr + FreeOffset(u)) <= base
  }

  /** Retype is refused exactly if there is no room, saying what is left, and otherwise takes the lowest place. */
  lemma {:induction false} DecodeIsExact(noChildren: bool, u: Cap, sizeBits: nat, count: nat, base: nat)
    requires u.Untyped? && FreeOffset(u) <= Pow2(u.bits) && u.ptr % Pow2(u.bits) == 0 && count >= 1
    ensures match DecodeRetype(noChildren, u, sizeBits, count)
            case Place(b) => HasRoom(noChildren, u, sizeBits, count, b)
                             && (HasRoom(noChildren, u, sizeBits, count, base) ==> b <= base)
            case NotEnoughMemory(left) => !HasRoom(noChildren, u, sizeBits, count, base)
                                          && left == Pow2(u.bits) - if noChildren then 0 else FreeOffset(u)
  {
    var s, x := Pow2(sizeBits), u.ptr + StartOffset(noChildren, u);
    hide Pow2;
    if DecodeRetype(noChildren, u, sizeBits, count).Place? {
      PlacementFits(noChildren, u, sizeBits, count);
      if HasRoom(noChildren, u, sizeBits, count, base) { LowestMultiple(x, AlignUp(x, sizeBits), base, s); }
    } else if u.ptr + Pow2(u.bits) - x >= count * s {
      DivideAtLeastConverse(u.ptr + Pow2(u.bits) - x, s, count);
    }
  }

  lemma LowestMultiple(x: nat, a: nat, b: nat, s: nat)
    requires s > 0 && x <= a < x + s && a % s == 0 && x <= b && b % s == 0
    ensures a <= b
  {
    QuotientRemainder(a, s);
    QuotientRemainder(b, s);
    if b / s < a / s {
      MulLe(b / s + 1, a / s, s);
      MulSum(b / s, 1, s);
    } else {
      MulLe(a / s, b / s, s);
    }
  }

  lemma DivideAtLeastConverse(x: nat, s: nat, n: nat)
    requires s > 0 && n * s <= x
    ensures n <= x / s
  {
    QuotientRemainder(x, s);
    if x / s < n {
      MulLe(x / s + 1, n, s);
      MulSum(x / s, 1, s);
    }
  }

  // -------------------------------------------------------------------- creating the caps

  lemma {:induction false} ObjectAligned(base: nat, bits: nat)
    requires base % Pow2(bits) == 0
    ensures bits == TCB_BITS ==> base % 2048 == 0
    ensures bits >= 4 ==> base % 16 == 0
    ensures (base + Pow2(bits)) % Pow2(bits) == 0
  {
    var s := Pow2(bits);
    QuotientRemainder(base, s);
    var q := base / s;
    MulSum(q, 1, s);
    MultipleModulo(q + 1, s);
    if bits == TCB_BITS { Pow2OfTcb(); }
    if bits >= 4 {
      Pow2Add(bits - 4, 4);
      assert Pow2(4) == 16;
      MulAssoc(q, Pow2(bits - 4), 16);
      MulNonNegative(q, Pow2(bits - 4));
      MultipleModulo(q * Pow2(bits - 4), 16);
    }
  }

  predicate LargeEnough(t: ObjectType, userSize: nat) {
    && (t.UntypedObject? ==> userSize >= MIN_UNTYPED_BITS)
    && (t.SchedContextObject? ==> userSize >= 7)
    && (t.CapTableObject? ==> userSize >= 1)
  }

  /** The caps createNewObjects makes, lowest address first. */
  function NewCaps(t: ObjectType, userSize: nat, base: nat, count: nat): (caps: seq<Cap>)
    requires base + count * Pow2(ObjectSizeBits(t, userSize)) <= WORD
    ensures |caps| == count
    decreases count
  {
    if count == 0 then []
    else
      var s := Pow2(ObjectSizeBits(t, userSize));
      MulSum(count - 1, 1, s);
      MulNonNegative(count - 1, s);
      [CreateObject(t, base, userSize)] + NewCaps(t, userSize, base + s, count - 1)
  }

  lemma FirstOfNewCaps(t: ObjectType, userSize: nat, base: nat, count: nat)
    requires count > 0 && base + count * Pow2(ObjectSizeBits(t, userSize)) <= WORD
    ensures var s := Pow2(ObjectSizeBits(t, userSize));
            && base + s <= WORD && base + s + (count - 1) * s <= WORD
            && NewCaps(t, userSize, base, count) ==
               [CreateObject(t, base, userSize)] + NewCaps(t, userSize, base + s, count - 1)
  {
    MulSum(count - 1, 1, Pow2(ObjectSizeBits(t, userSize)));
    MulNonNegative(count - 1, Pow2(ObjectSizeBits(t, userSize)));
  }

  /** The i-th cap names the i-th object, and each is what was asked for. */
  lemma {:induction false} NewCapsAsAsked(t: ObjectType, userSize: nat, base: nat, count: nat, i: nat)
    requires base + count * Pow2(ObjectSizeBits(t, userSize)) <= WORD && i < count
    requires base % Pow2(ObjectSizeBits(t, userSize)) == 0
    ensures NamesNew(NewCaps(t, userSize, base, count)[i], t, userSize, base + i * Pow2(ObjectSizeBits(t, userSize)))
    decreases count
  {
    var s := Pow2(ObjectSizeBits(t, userSize));
    hide ObjectSizeBits, NamesNew;
    MulSum(count - 1, 1, s);
    MulNonNegative(count - 1, s);
    if i == 0 {
      if t.TcbObject? { TcbAligned(base, userSize); }
      CreatedAsAsked(t, base, userSize);
    } else {
      NextAligned(base, s);
      NewCapsAsAsked(t, userSize, base + s, count - 1, i - 1);
      MulSum(i - 1, 1, s);
    }
  }

  lemma TcbAligned(base: nat, userSize: nat)
    requires base % Pow2(ObjectSizeBits(TcbObject, userSize)) == 0
    ensures base % 2048 == 0
  {
    Pow2OfTcb();
  }

  lemma NextAligned(a: nat, s: nat)
    requires s > 0 && a % s == 0
    ensures (a + s) % s == 0
  {
    QuotientRemainder(a, s);
    MulSum(a / s, 1, s);
    MultipleModulo(a / s + 1, s);
  }

  /** New objects laid out in ascending order between two addresses. */
  predicate Ascending(caps: seq<Cap>, lo: nat, hi: nat)
    decreases |caps|
  {
    if caps == [] then true
    else
      && IsNewObject(caps[0]) && WellFormed(caps[0]) && lo <= ObjectBase(caps[0]) && ObjectEnd(caps[0]) <= hi
      && Ascending(caps[1..], ObjectEnd(caps[0]), hi)
  }

  lemma {:induction false} AscendCons(c: Cap, rest: seq<Cap>, lo: nat, hi: nat)
    requires IsNewObject(c) && WellFormed(c) && lo <= ObjectBase(c) && ObjectEnd(c) <= hi
    requires Ascending(rest, ObjectEnd(c), hi)
    ensures Ascending([c] + rest, lo, hi)
  {
    assert ([c] + rest)[1..] == rest;
  }

  lemma {:induction false} NewCapsAscend(t: ObjectType, userSize: nat, base: nat, count: nat)
    requires base + count * Pow2(ObjectSizeBits(t, userSize)) <= WORD
    requires base % Pow2(ObjectSizeBits(t, userSize)) == 0 && LargeEnough(t, userSize)
    ensures Ascending(NewCaps(t, userSize, base, count), base, base + count * Pow2(ObjectSizeBits(t, userSize)))
    decreases count
  {
    hide Ascending;
    hide WellFormed;
    hide CreateObject;
    hide ObjectSizeBits;
    hide ObjectEnd;
    var s := Pow2(ObjectSizeBits(t, userSize));
    if count == 0 {
      NoneAscend(base, base + count * s);
    } else {
      MulSum(count - 1, 1, s);
      MulNonNegative(count - 1, s);
      AlignedObject(t, userSize, base);
      NewCapsAscend(t, userSize, base + s, count - 1);
      AscendCons(CreateObject(t, base, userSize), NewCaps(t, userSize, base + s, count - 1), base, base + count * s);
    }
  }

  lemma {:induction false} NoneAscend(lo: nat, hi: nat)
    ensures Ascending([], lo, hi)
  {
  }

  lemma {:induction false} AlignedObject(t: ObjectType, userSize: nat, base: nat)
    requires base + Pow2(ObjectSizeBits(t, userSize)) <= WORD
    requires base % Pow2(ObjectSizeBits(t, userSize)) == 0 && LargeEnough(t, userSize)
    ensures var c := CreateObject(t, base, userSize);
            && IsNewObject(c) && WellFormed(c)
            && ObjectBase(c) == base && ObjectEnd(c) == base + Pow2(ObjectSizeBits(t, userSize))
    ensures (base + Pow2(ObjectSizeBits(t, userSize))) % Pow2(ObjectSizeBits(t, userSize)) == 0
  {
    ObjectAligned(base, ObjectSizeBits(t, userSize));
    AlignedModulo(base, ObjectSizeBits(t, userSize));
    CreatedObject(t, base, userSize);
  }

  /** createNewObjects: insert each cap directly after the untyped at k. */
  function CreateNewObjects(m: Mdb, k: nat, slots: seq<nat>, caps: seq<Cap>): Mdb
    requires k < |m.es| && |slots| == |caps|
    decreases |caps|
  {
    if caps == [] then m
    else CreateNewObjects(InsertNewCap(m, k, slots[0], caps[0]), k, slots[1..], caps[1..])
  }

  /** Everything derived from k ends at or below the address `limit`. */
  predicate DerivedBelow(es: seq<Entry>, k: nat, limit: nat)
    requires k < |es|
  {
    forall j | 0 <= j < |es| && Derived(es, k, j) :: ObjectEnd(es[j].cap) <= limit
  }

  lemma {:induction false} InsertedBelow(m: Mdb, k: nat, slot: nat, cap: Cap)
    requires Ids(m) && k < |m.es| && DerivedBelow(m.es, k, ObjectBase(cap))
    ensures DerivedBelow(InsertNewCap(m, k, slot, cap).es, k, ObjectEnd(cap))
  {
    var r := InsertNewCap(m, k, slot, cap).es;
    forall j: nat | j < |r| && Derived(r, k, j) ensures ObjectEnd(r[j].cap) <= ObjectEnd(cap) {
      if j != k + 1 { assert Derived(m.es, k, Before(k, j)); }
    }
  }

  lemma {:induction false} BelowIsUnused(es: seq<Entry>, k: nat, cap: Cap)
    requires k < |es| && es[k].cap.Untyped? && DerivedBelow(es, k, ObjectBase(cap))
    requires ObjectBase(es[k].cap) <= ObjectBase(cap) && ObjectEnd(cap) <= ObjectBase(es[k].cap) + FreeOffset(es[k].cap)
    ensures UnusedIn(es, k, cap)
  {
  }

  lemma {:induction false} CreateOneKeepsInv(m: Mdb, k: nat, slot: nat, cap: Cap)
    requires Inv(m) && k < |m.es| && m.es[k].cap.Untyped? && IsNewObject(cap) && WellFormed(cap)
             && UnusedIn(m.es, k, cap)
    requires DerivedBelow(m.es, k, ObjectBase(cap))
    ensures var r := InsertNewCap(m, k, slot, cap);
            Inv(r) && |r.es| == |m.es| + 1 && r.es[k] == m.es[k] && DerivedBelow(r.es, k, ObjectEnd(cap))
  {
    InsertNewCapKeepsInv(m, k, slot, cap);
    InsertedBelow(m, k, slot, cap);
  }

  lemma {:induction false} CreateNewObjectsKeepsInv(m: Mdb, k: nat, slots: seq<nat>, caps: seq<Cap>, lo: nat)
    requires Inv(m) && k < |m.es| && |slots| == |caps| && m.es[k].cap.Untyped?
    requires Ascending(caps, lo, m.es[k].cap.ptr + FreeOffset(m.es[k].cap)) && m.es[k].cap.ptr <= lo
    requires DerivedBelow(m.es, k, lo)
    ensures Inv(CreateNewObjects(m, k, slots, caps))
    decreases |caps|
  {
    hide Inv;
    hide DerivedBelow;
    hide WellFormed;
    hide IsNewObject;
    hide UnusedIn;
    if caps != [] {
      BelowRises(m.es, k, lo, ObjectBase(caps[0]));
      BelowIsUnused(m.es, k, caps[0]);
      CreateOneKeepsInv(m, k, slots[0], caps[0]);
      CreateNewObjectsKeepsInv(InsertNewCap(m, k, slots[0], caps[0]), k, slots[1..], caps[1..], ObjectEnd(caps[0]));
    }
  }

  lemma {:induction false} BelowRises(es: seq<Entry>, k: nat, lo: nat, hi: nat)
    requires k < |es| && DerivedBelow(es, k, lo) && lo <= hi
    ensures DerivedBelow(es, k, hi)
  {
  }

  /** invokeUntyped_Retype after a successful decode: advance the free index, then create the caps. */
  function RetypeUntyped(m: Mdb, k: nat, slots: seq<nat>, caps: seq<Cap>, top: nat): Mdb
    requires k < |m.es| && m.es[k].cap.Untyped? && |slots| == |caps| && m.es[k].cap.ptr <= top
  {
    CreateNewObjects(m.(es := WithCap(m.es, k, SetFree(m.es[k].cap, (top - m.es[k].cap.ptr) / 16))), k, slots, caps)
  }

  lemma {:induction false} ChunkedSum(a: nat, b: nat)
    requires a % 16 == 0 && b % 16 == 0
    ensures (a + b) % 16 == 0 && (a + b) / 16 * 16 == a + b
  {
  }

  /** The free index is exact: every object size is a multiple of the 16-byte chunk it counts. */
  lemma {:induction false} TopIsChunked(t: ObjectType, userSize: nat, base: nat, count: nat)
    requires LargeEnough(t, userSize) && base % Pow2(ObjectSizeBits(t, userSize)) == 0
    ensures (base + count * Pow2(ObjectSizeBits(t, userSize))) % 16 == 0
  {
    var bits := ObjectSizeBits(t, userSize);
    ObjectAligned(base, bits);
    Pow2Add(bits - 4, 4);
    assert Pow2(4) == 16;
    MulAssoc(count, Pow2(bits - 4), 16);
    MulNonNegative(count, Pow2(bits - 4));
    var n := count * Pow2(bits - 4);
    MultipleModulo(n, 16);
    ChunkedSum(base, n * 16);
  }

  lemma {:induction false} ChunkedDifference(top: nat, ptr: nat)
    requires ptr <= top && top % 16 == 0 && ptr % 16 == 0
    ensures top == ptr + (top - ptr) / 16 * 16
  {
  }

  /** What a successful decode guarantees about the memory it chose and the caps made there. */
  lemma {:induction false} DecodedRetype(noChildren: bool, u: Cap, t: ObjectType, userSize: nat, count: nat, base: nat)
    requires u.Untyped? && WellFormed(u) && count >= 1 && LargeEnough(t, userSize)
    requires DecodeRetype(noChildren, u, ObjectSizeBits(t, userSize), count) == Place(base)
    ensures var top := base + count * Pow2(ObjectSizeBits(t, userSize));
            && u.ptr + StartOffset(noChildren, u) <= base <= top <= u.ptr + Pow2(u.bits) <= WORD
            && base % Pow2(ObjectSizeBits(t, userSize)) == 0 && top == u.ptr + (top - u.ptr) / 16 * 16
            && top % 16 == 0 && Ascending(NewCaps(t, userSize, base, count), base, top)
  {
    var sizeBits := ObjectSizeBits(t, userSize);
    AlignedModulo(u.ptr, u.bits);
    PlacementFits(noChildren, u, sizeBits, count);
    hide DecodeRetype, LargeEnough, Ascending, NewCaps, Pow2;
    MulNonNegative(count, Pow2(sizeBits));
    TopIsChunked(t, userSize, base, count);
    ChunkedDifference(base + count * Pow2(sizeBits), u.ptr);
    NewCapsAscend(t, userSize, base, count);
  }

  /** Before a retype, everything derived from the untyped ends at or below the chosen memory. */
  lemma {:induction false} PlacementIsUnused(m: Mdb, k: nat, base: nat)
    requires k < |m.es| && m.es[k].cap.Untyped?
    requires m.es[k].cap.ptr + StartOffset(NoChildrenAt(m.es, k), m.es[k].cap) <= base
    requires Inv(m)
    ensures DerivedBelow(m.es, k, base)
  {
    assert EntryOk(m.es[k]);
    if NoChildrenAt(m.es, k) { NoChildrenMeansNoneDerived(m, k); }
    forall j: nat | j < |m.es| && Derived(m.es, k, j) ensures ObjectEnd(m.es[j].cap) <= base {
      assert DerivedKind(m.es[k].cap, m.es[j].cap);
    }
  }

  lemma {:induction false} SetFreeBelow(es: seq<Entry>, k: nat, free: nat, limit: nat)
    requires k < |es| && es[k].cap.Untyped? && DerivedBelow(es, k, limit)
    ensures DerivedBelow(WithCap(es, k, SetFree(es[k].cap, free)), k, limit)
    ensures limit <= es[k].cap.ptr + free * 16 ==> FreeAbove(es, k, free)
  {
    var r := WithCap(es, k, SetFree(es[k].cap, free));
    forall j: nat | j < |r| && Derived(r, k, j) ensures ObjectEnd(r[j].cap) <= limit {
      assert Derived(es, k, j);
    }
  }

  /**
   * A retype that decodes successfully keeps the invariant. The only evidence it uses is the free index
   * and one look at the next slot, yet the new objects share no memory with any cap outside the
   * untyped's own ancestry.
   */
  lemma {:induction false} RetypeKeepsInv(m: Mdb, k: nat, slots: seq<nat>, caps: seq<Cap>, base: nat, top: nat)
    requires k < |m.es| && m.es[k].cap.Untyped? && |slots| == |caps|
    requires m.es[k].cap.ptr + StartOffset(NoChildrenAt(m.es, k), m.es[k].cap) <= base <= top
    requires top <= m.es[k].cap.ptr + Pow2(m.es[k].cap.bits)
    requires m.es[k].cap.ptr % 16 == 0 && top % 16 == 0 && Ascending(caps, base, top)
    requires Inv(m)
    ensures Inv(RetypeUntyped(m, k, slots, caps, top))
  {
    hide Inv;
    hide DerivedBelow;
    hide Ascending;
    hide FreeAbove;
    hide NoChildrenAt;
    var u := m.es[k].cap;
    var free := (top - u.ptr) / 16;
    assert free * 16 == top - u.ptr;
    PlacementIsUnused(m, k, base);
    SetFreeBelow(m.es, k, free, base);
    SetFreeKeepsInv(m, k, free);
    var r := m.(es := WithCap(m.es, k, SetFree(u, free)));
    CreateNewObjectsKeepsInv(r, k, slots, caps, base);
  }
}
