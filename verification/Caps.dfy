/**
 * Capabilities and the predicates of object/objecttype.c that compare, derive
 * and mask them (MCS configuration, architecture-independent cap types).
 */
module Caps {
  import opened Words

  const ENDPOINT_BITS: nat := 4
  const NOTIFICATION_BITS: nat := 6
  const SLOT_BITS: nat := 5
  const TCB_BITS: nat := 11
  const REPLY_BITS: nat := 5
  const TCB_CNODE_ENTRIES: nat := 5

  datatype ZombieType = ZombieTcb | ZombieCNode(radix: nat)

  datatype Cap =
    | Null
    | Untyped(ptr: Word, bits: nat, free: nat)
    | Endpoint(ptr: Word, badge: Word, canSend: bool, canReceive: bool, canGrant: bool, canGrantReply: bool)
    | Notification(ptr: Word, badge: Word, canSend: bool, canReceive: bool)
    | CNode(ptr: Word, radix: nat, guardSize: nat, guard: Word)
    | Thread(ptr: Word)
    | Reply(ptr: Word, replyCanGrant: bool)
    | SchedContext(ptr: Word, bits: nat)
    | SchedControl(core: nat)
    | Domain
    | IrqControl
    | IrqHandler(irq: nat)
    | Zombie(ptr: Word, kind: ZombieType, number: nat)

  datatype Rights = Rights(write: bool, read: bool, grant: bool, grantReply: bool)

  datatype Right = Write | Read | Grant | GrantReply

  // ---------------------------------------------------------------- memory

  predicate IsPhysical(c: Cap) {
    !c.Null? && !c.Domain? && !c.IrqControl? && !c.SchedControl? && !c.IrqHandler?
  }

  function SizeBits(c: Cap): nat {
    match c
    case Untyped(_, b, _) => b
    case Endpoint(_, _, _, _, _, _) => ENDPOINT_BITS
    case Notification(_, _, _, _) => NOTIFICATION_BITS
    case CNode(_, r, _, _) => r + SLOT_BITS
    case Thread(_) => TCB_BITS
    case Reply(_, _) => REPLY_BITS
    case SchedContext(_, b) => b
    case Zombie(_, ZombieTcb, _) => TCB_BITS
    case Zombie(_, ZombieCNode(r), _) => r + SLOT_BITS
    case _ => 0
  }

  /** A thread cap holds the address of the tcb_t; the object starts with the TCB CNode. */
  function ObjectBase(c: Cap): Word {
    match c
    case Thread(p) => p / 2048 * 2048
    case Null => 0
    case SchedControl(_) => 0
    case Domain => 0
    case IrqControl => 0
    case IrqHandler(_) => 0
    case _ => c.ptr
  }

  function ObjectEnd(c: Cap): nat {
    ObjectBase(c) + Pow2(SizeBits(c))
  }

  predicate Overlap(a: Cap, b: Cap) {
    IsPhysical(a) && IsPhysical(b) && ObjectBase(a) < ObjectEnd(b) && ObjectBase(b) < ObjectEnd(a)
  }

  /** FREE_INDEX_TO_OFFSET of the cap's free index. */
  function FreeOffset(c: Cap): nat
    requires c.Untyped?
  {
    c.free * 16
  }

  predicate WellFormed(c: Cap) {
    && ObjectEnd(c) <= WORD
    && (c.Untyped? ==>
          c.bits >= MIN_UNTYPED_BITS && IsAligned(c.ptr, c.bits) && c.ptr % 16 == 0 && FreeOffset(c) <= Pow2(c.bits))
  }

  // ------------------------------------------------------------ comparison

  function Top(base: Word, bits: nat): Word {
    (base + Pow2(bits) - 1) % WORD
  }

  predicate SameRegionAs(a: Cap, b: Cap) {
    match a
    case Untyped(ptr, bits, _) =>
      IsPhysical(b) &&
      var aTop := Top(ptr, bits);
      var bBase := ObjectBase(b);
      var bTop := Top(bBase, SizeBits(b));
      ptr <= bBase && bTop <= aTop && bBase <= bTop
    case Endpoint(ptr, _, _, _, _, _) => b.Endpoint? && ptr == b.ptr
    case Notification(ptr, _, _, _) => b.Notification? && ptr == b.ptr
    case CNode(ptr, radix, _, _) => b.CNode? && ptr == b.ptr && radix == b.radix
    case Thread(ptr) => b.Thread? && ptr == b.ptr
    case Reply(ptr, _) => b.Reply? && ptr == b.ptr
    case Domain => b.Domain?
    case IrqControl => b.IrqControl? || b.IrqHandler?
    case IrqHandler(irq) => b.IrqHandler? && irq == b.irq
    case SchedContext(ptr, bits) => b.SchedContext? && ptr == b.ptr && bits == b.bits
    case SchedControl(_) => b.SchedControl?
    case _ => false
  }

  predicate SameObjectAs(a: Cap, b: Cap) {
    !a.Untyped? && !a.IrqControl? && SameRegionAs(a, b)
  }

  /** What a cap names, when `SameObjectAs` can hold of it at all. */
  datatype Object =
    | NoObject
    | EndpointAt(ptr: Word)
    | NotificationAt(ptr: Word)
    | CNodeAt(ptr: Word, radix: nat)
    | ThreadAt(ptr: Word)
    | ReplyAt(ptr: Word)
    | SchedContextAt(ptr: Word, bits: nat)
    | SchedControlObject
    | DomainObject
    | Irq(irq: nat)

  function ObjectOf(c: Cap): Object {
    match c
    case Endpoint(p, _, _, _, _, _) => EndpointAt(p)
    case Notification(p, _, _, _) => NotificationAt(p)
    case CNode(p, r, _, _) => CNodeAt(p, r)
    case Thread(p) => ThreadAt(p)
    case Reply(p, _) => ReplyAt(p)
    case SchedContext(p, b) => SchedContextAt(p, b)
    case SchedControl(_) => SchedControlObject
    case Domain => DomainObject
    case IrqHandler(i) => Irq(i)
    case _ => NoObject
  }

  /** sameObjectAs is equality of the named object. */
  lemma SameObjectIsEqualObject(a: Cap, b: Cap)
    ensures SameObjectAs(a, b) <==> ObjectOf(a) == ObjectOf(b) != NoObject
  {
    match a {
      case Untyped(_, _, _) =>
      case Zombie(_, _, _) =>
      case _ =>
    }
  }

  /** For caps that do not wrap, sameRegionAs of an untyped is containment. */
  lemma UntypedRegionIsContainment(a: Cap, b: Cap)
    requires WellFormed(a) && WellFormed(b) && a.Untyped?
    ensures SameRegionAs(a, b) <==>
            IsPhysical(b) && ObjectBase(a) <= ObjectBase(b) && ObjectEnd(b) <= ObjectEnd(a)
  {
    if IsPhysical(b) {
      assert Top(ObjectBase(a), a.bits) == ObjectEnd(a) - 1;
      assert Top(ObjectBase(b), SizeBits(b)) == ObjectEnd(b) - 1;
    }
  }

  /** Two caps to one object in memory overlap. */
  lemma SameObjectOverlaps(a: Cap, b: Cap)
    requires ObjectOf(a) == ObjectOf(b) != NoObject && IsPhysical(a)
    ensures Overlap(a, b)
  {
  }

  // ------------------------------------------------------------ derivation

  predicate IsBadged(c: Cap) {
    (c.Endpoint? || c.Notification?) && c.badge != 0
  }

  predicate IsCapRevocable(derived: Cap, src: Cap) {
    match derived
    case Endpoint(_, badge, _, _, _, _) => !src.Endpoint? || badge != src.badge
    case Notification(_, badge, _, _) => !src.Notification? || badge != src.badge
    case IrqHandler(_) => src.IrqControl?
    case Untyped(_, _, _) => true
    case _ => false
  }

  /** The fields of seL4_CNode_CapData. */
  function GuardSizeOf(data: Word): nat {
    data % 64
  }

  function GuardOf(data: Word): Word {
    data / 64
  }

  function UpdateCapData(preserve: bool, data: Word, c: Cap): Cap {
    match c
    case Endpoint(p, badge, s, v, g, y) => if !preserve && badge == 0 then Endpoint(p, data, s, v, g, y) else Null
    case Notification(p, badge, s, v) => if !preserve && badge == 0 then Notification(p, data, s, v) else Null
    case CNode(_, radix, _, _) =>
      var guardSize := GuardSizeOf(data);
      if guardSize + radix > WORD_BITS then Null
      else c.(guardSize := guardSize, guard := LowBits(GuardOf(data), guardSize))
    case _ => c
  }

  function MaskCapRights(r: Rights, c: Cap): Cap {
    match c
    case Endpoint(p, b, s, v, g, y) =>
      Endpoint(p, b, s && r.write, v && r.read, g && r.grant, y && r.grantReply)
    case Notification(p, b, s, v) => Notification(p, b, s && r.write, v && r.read)
    case Reply(p, g) => Reply(p, g && r.grant)
    case _ => c
  }

  /** deriveCap; `noChildren` is the answer of ensureNoChildren on the source slot. */
  function DeriveCap(noChildren: bool, c: Cap): Cap {
    match c
    case Zombie(_, _, _) => Null
    case IrqControl => Null
    case Untyped(_, _, _) => if noChildren then c else Null
    case _ => c
  }

  /** What the holder of a cap may do to its object, for the objects that distinguish it. */
  function RightsOf(c: Cap): set<Right> {
    match c
    case Endpoint(_, _, s, v, g, y) => Only(s, Write) + Only(v, Read) + Only(g, Grant) + Only(y, GrantReply)
    case Notification(_, _, s, v) => Only(s, Write) + Only(v, Read)
    case Reply(_, g) => Only(g, Grant)
    case _ => {}
  }

  function Only(b: bool, r: Right): set<Right> {
    if b then {r} else {}
  }

  function MaskOf(r: Rights): set<Right> {
    Only(r.write, Write) + Only(r.read, Read) + Only(r.grant, Grant) + Only(r.grantReply, GrantReply)
  }

  function BadgeOf(c: Cap): Word {
    if c.Endpoint? || c.Notification? then c.badge else 0
  }

  /** All there is to a cap but its rights, its badge and its guard. */
  predicate SameBut(a: Cap, b: Cap) {
    match a
    case Endpoint(p, _, _, _, _, _) => b.Endpoint? && b.ptr == p
    case Notification(p, _, _, _) => b.Notification? && b.ptr == p
    case CNode(p, r, _, _) => b.CNode? && b.ptr == p && b.radix == r
    case Reply(p, _) => b.Reply? && b.ptr == p
    case _ => a == b
  }

  predicate SameGuard(a: Cap, b: Cap) {
    a.CNode? && b.CNode? ==> a.guardSize == b.guardSize && a.guard == b.guard
  }

  /** The caps that copying or minting `src` can produce, whatever the arguments. */
  predicate IsDerivation(noChildren: bool, src: Cap, c: Cap) {
    && !src.Null? && !src.Zombie? && !src.IrqControl? && (src.Untyped? ==> noChildren)
    && SameBut(src, c) && RightsOf(c) <= RightsOf(src) && (BadgeOf(c) == BadgeOf(src) || BadgeOf(src) == 0)
  }

  predicate CannotCopy(noChildren: bool, src: Cap) {
    src.Null? || src.Zombie? || src.IrqControl? || (src.Untyped? && !noChildren)
  }

  /** CNodeCopy refuses exactly the caps that must not be copied; otherwise rights are all that can differ. */
  lemma CopyKeepsMaskedRights(noChildren: bool, r: Rights, src: Cap)
    ensures var c := DeriveCap(noChildren, MaskCapRights(r, src));
            && (c.Null? <==> CannotCopy(noChildren, src))
            && (!c.Null? ==>
                  && IsDerivation(noChildren, src, c)
                  && RightsOf(c) == RightsOf(src) * MaskOf(r) && BadgeOf(c) == BadgeOf(src) && SameGuard(c, src))
  {
    MaskingIntersects(r, src);
  }

  lemma MaskingIntersects(r: Rights, src: Cap)
    ensures var c := MaskCapRights(r, src);
            && RightsOf(c) == RightsOf(src) * MaskOf(r) && BadgeOf(c) == BadgeOf(src)
            && SameGuard(c, src) && SameBut(src, c)
  {
    assert forall x :: x in RightsOf(MaskCapRights(r, src)) <==> x in RightsOf(src) && x in MaskOf(r);
  }

  lemma LowBitsIsModulo(w: Word, n: nat)
    ensures LowBits(w, n) == w % Pow2(n)
  {
    var d := Pow2(n);
    hide Pow2;
    if w < d { SmallModulo(w, d); }
  }

  lemma SmallModulo(w: nat, d: nat)
    requires w < d
    ensures w % d == w
  {
  }

  /** A second badge, any badge with `preserve`, and a guard that does not fit are refused. */
  predicate CannotRelabel(preserve: bool, data: Word, src: Cap) {
    || ((src.Endpoint? || src.Notification?) && (preserve || src.badge != 0))
    || (src.CNode? && GuardSizeOf(data) + src.radix > WORD_BITS)
  }

  /** Cap data is the badge of an endpoint or notification cap and the guard of a CNode cap. */
  predicate Labelled(data: Word, src: Cap, c: Cap) {
    && (src.Endpoint? || src.Notification? ==> BadgeOf(c) == data)
    && (src.CNode? ==> c.CNode? && c.guardSize == GuardSizeOf(data) && c.guard == GuardOf(data) % Pow2(c.guardSize))
  }

  lemma Relabelled(preserve: bool, data: Word, src: Cap)
    ensures var c := UpdateCapData(preserve, data, src);
            && (c.Null? <==> src.Null? || CannotRelabel(preserve, data, src))
            && (!c.Null? ==> SameBut(src, c) && RightsOf(c) == RightsOf(src) && Labelled(data, src, c))
            && (c.Null? || src.Endpoint? || src.Notification? || src.CNode? || c == src)
  {
    if src.CNode? { LowBitsIsModulo(GuardOf(data), GuardSizeOf(data)); }
    hide LowBits, Pow2;
  }

  /** CNodeMint refuses what copying and relabelling do, and otherwise gives what it was asked for. */
  lemma MintGivesBadgeOrGuard(noChildren: bool, r: Rights, data: Word, src: Cap)
    ensures var c := DeriveCap(noChildren, UpdateCapData(false, data, MaskCapRights(r, src)));
            && (c.Null? <==> CannotCopy(noChildren, src) || CannotRelabel(false, data, src))
            && (!c.Null? ==>
                  && IsDerivation(noChildren, src, c) && RightsOf(c) == RightsOf(src) * MaskOf(r)
                  && Labelled(data, src, c))
  {
    MaskingIntersects(r, src);
    Relabelled(false, data, MaskCapRights(r, src));
    hide MaskCapRights, UpdateCapData, RightsOf, MaskOf, GuardOf, GuardSizeOf, Pow2;
  }

  /** The caps a move may leave behind: CNodeMove keeps the cap, CNodeMutate may change a CNode's guard. */
  predicate IsRelabelling(src: Cap, c: Cap) {
    c == src || (src.CNode? && c.CNode? && c.ptr == src.ptr && c.radix == src.radix)
  }

  /** CNodeMutate refuses endpoint and notification caps and a guard that does not fit. */
  lemma MutateRelabels(data: Word, src: Cap)
    ensures var c := UpdateCapData(true, data, src);
            && (c.Null? <==> src.Null? || CannotRelabel(true, data, src))
            && (!c.Null? ==> IsRelabelling(src, c) && RightsOf(c) == RightsOf(src) && Labelled(data, src, c))
  {
    Relabelled(true, data, src);
    hide UpdateCapData, RightsOf, GuardOf, GuardSizeOf, Pow2;
  }
}
