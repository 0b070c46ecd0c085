/** Retype with its memory: resetUntypedCap clears what the untyped has handed out, and can be interrupted. */
module CapRetype {
  import opened Words
  import opened Arith
  import opened Caps
  import opened MdbList
  import opened MdbOps
  import opened CSpace
  import opened CapSlots
  import opened Retype
  import opened MdbRuns
  import opened ZeroedMemory

  ghost predicate SameBytes(b: Bytes, c: Bytes) {
    forall a: nat :: b(a) == c(a)
  }

  class Ram {
    var byte: Bytes

    constructor (contents: Bytes)
      ensures byte == contents
    {
      byte := contents;
    }

    /** memzero, a word at a time; clearMemory calls it with a power of two. */
    method ClearMemory(base: nat, size: nat)
      requires base % 8 == 0 && size % 8 == 0
      modifies this
      ensures SameBytes(byte, Cleared(old(byte), base, base + size))
    {
      var p, n := base, size;
      while n != 0
        invariant n % 8 == 0 && p + n == base + size && base <= p
        invariant SameBytes(byte, Cleared(old(byte), base, p))
      {
        byte := Cleared(byte, p, p + 8);
        p, n := p + 8, n - 8;
      }
    }
  }

  // ------------------------------------------------------------------ the chunks of an untyped

  /** An untyped of that size consists of whole chunks, and a chunk of whole words and index steps. */
  lemma Chunks(bits: nat, chunk: nat)
    requires MIN_UNTYPED_BITS <= chunk
    ensures Pow2(chunk) % 16 == 0 && Pow2(chunk) >= 16
    ensures chunk <= bits ==> Pow2(bits) % Pow2(chunk) == 0
  {
    assert Pow2(4) == 16;
    Pow2Add(chunk - 4, 4);
    MultipleModulo(Pow2(chunk - 4), 16);
    if chunk <= bits {
      Pow2Add(bits - chunk, chunk);
      MultipleModulo(Pow2(bits - chunk), Pow2(chunk));
    }
  }

  /** The chunk that holds the last byte below the offset. */
  lemma FirstChunk(offset: nat, bits: nat, chunk: nat)
    requires MIN_UNTYPED_BITS <= chunk <= bits && 0 < offset <= Pow2(bits)
    ensures var c := RoundDown(offset - 1, chunk);
            && 0 <= c < offset <= c + Pow2(chunk) <= Pow2(bits) && c % Pow2(chunk) == 0 && c % 16 == 0
  {
    var size, c := Pow2(chunk), RoundDown(offset - 1, chunk);
    Chunks(bits, chunk);
    RoundDownAligned(offset - 1, chunk);
    QuotientRemainder(offset - 1, size);
    NextMultiple(c, Pow2(bits), size);
    SixteenDivides(c, chunk);
  }

  lemma NextMultiple(a: nat, b: nat, s: nat)
    requires s > 0 && a % s == 0 && b % s == 0 && a < b
    ensures a + s <= b
  {
    QuotientRemainder(a, s);
    QuotientRemainder(b, s);
    if b / s <= a / s { MulLe(b / s, a / s, s); }
    MulLe(a / s + 1, b / s, s);
    MulSum(a / s, 1, s);
  }

  lemma SixteenDivides(a: nat, chunk: nat)
    requires MIN_UNTYPED_BITS <= chunk && a % Pow2(chunk) == 0
    ensures a % 16 == 0
  {
    assert Pow2(4) == 16;
    Pow2Add(chunk - 4, 4);
    QuotientRemainder(a, Pow2(chunk));
    MulAssoc(a / Pow2(chunk), Pow2(chunk - 4), 16);
    MulNonNegative(a / Pow2(chunk), Pow2(chunk - 4));
    MultipleModulo(a / Pow2(chunk) * Pow2(chunk - 4), 16);
  }

  // ------------------------------------------------------------------ resetUntypedCap

  /** Only the free index of the untyped in s differs. */
  predicate Refreed(m0: Memory, m1: Memory, s: nat, free: nat) {
    && s in m0 && m0[s].cap.Untyped?
    && m1 == m0[s := m0[s].(cap := SetFree(m0[s].cap, free))]
  }

  /** Every free index is possible for an untyped without children, and it stays without. */
  lemma ChildlessReset(m: Mdb, k: nat, free: nat)
    requires Inv(m) && k < |m.es| && m.es[k].cap.Untyped? && NoChildrenAt(m.es, k)
    requires free * 16 <= Pow2(m.es[k].cap.bits)
    ensures Enabled(m, Reset(k, free))
    ensures var r := Apply(m, Reset(k, free)); |r.es| == |m.es| && NoChildrenAt(r.es, k) && Inv(r)
  {
    assert EntryOk(m.es[k]);
    NoChildrenMeansNoneDerived(m, k);
    assert Enabled(m, Reset(k, free));
    StepKeepsInv(m, Reset(k, free));
  }

  lemma ResetStep(mem: Memory, m: Mdb, k: nat, s: nat, free: nat)
    requires Represents(mem, m) && Occupies(m.es, k, s) && m.es[k].cap.Untyped? && NoChildrenAt(m.es, k)
    requires free * 16 <= Pow2(m.es[k].cap.bits)
    ensures s in mem && mem[s].cap == m.es[k].cap && StartOffset(NoChildrenAt(m.es, k), m.es[k].cap) == 0
    ensures var r := m.(es := WithCap(m.es, k, SetFree(m.es[k].cap, free)));
            && Enabled(m, Reset(k, free)) && Apply(m, Reset(k, free)) == r
            && Occupies(r.es, k, s) && r.es[k].cap == SetFree(m.es[k].cap, free) && NoChildrenAt(r.es, k)
  {
    ChildlessReset(m, k, free);
    hide Inv, NoChildrenAt, Pow2;
    RetypeFacts(mem, m, k);
  }

  lemma HeldCap(mem: Memory, m: Mdb, k: nat, s: nat)
    requires Represents(mem, m) && Occupies(m.es, k, s)
    ensures s in mem && mem[s].cap == m.es[k].cap
  {
    hide Inv;
    OccupiedFacts(mem, m, k);
  }

  method SetFreeIndex(c: Slots, parent: nat, free: nat, ghost k: nat)
    requires c.Valid() && Occupies(c.mdb.es, k, parent) && c.mdb.es[k].cap.Untyped? && NoChildrenAt(c.mdb.es, k)
    requires free * 16 <= Pow2(c.mdb.es[k].cap.bits)
    modifies c`mem, c`mdb
    ensures c.Valid() && Refreed(old(c.mem), c.mem, parent, free)
    ensures Enabled(old(c.mdb), Reset(k, free)) && c.mdb == Apply(old(c.mdb), Reset(k, free))
    ensures Occupies(c.mdb.es, k, parent) && NoChildrenAt(c.mdb.es, k)
  {
    hide Represents, NoChildrenAt, Enabled, Apply, DerivedBelow, WithCap, StartOffset, Pow2, FreeDestinations;
    ResetStep(c.mem, c.mdb, k, parent, free);
    NoDestinations(c.mem);
    c.MoveFreeIndex(parent, free, c.mem[parent].cap.ptr, [], k);
    HeldCap(c.mem, c.mdb, k, parent);
  }

  lemma NoDestinations(mem: Memory)
    ensures FreeDestinations(mem, [])
  {
  }

  /** The bytes b0 with those from the free index up to the old one cleared. */
  ghost predicate Wiped(b0: Bytes, b: Bytes, u: Cap, free: nat) {
    u.Untyped? && SameBytes(b, Cleared(b0, u.ptr + free * 16, u.ptr + FreeOffset(u)))
  }

  lemma NotWiped(b: Bytes, u: Cap)
    requires u.Untyped?
    ensures Wiped(b, b, u, u.free)
  {
  }

  /** Clearing one more chunk moves the boundary down; what lies above the old free index was zero before. */
  lemma WipeChunk(b0: Bytes, b: Bytes, b': Bytes, u: Cap, free: nat, offset: nat, size: nat)
    requires Wiped(b0, b, u, free) && ZeroFrom(u, b0) && offset % 16 == 0
    requires offset <= free * 16 <= offset + size <= Pow2(u.bits)
    requires SameBytes(b', Cleared(b, u.ptr + offset, u.ptr + offset + size))
    ensures Wiped(b0, b', u, offset / 16)
  {
    forall a: nat ensures b'(a) == Cleared(b0, u.ptr + offset, u.ptr + FreeOffset(u))(a) {
      assert b(a) == Cleared(b0, u.ptr + free * 16, u.ptr + FreeOffset(u))(a);
      assert InFree(u, a) ==> b0(a) == 0;
    }
  }

  lemma ResetNothing(m: Mdb, k: nat)
    requires Enabled(m, Reset(k, if k < |m.es| && m.es[k].cap.Untyped? then m.es[k].cap.free else 0))
    ensures Apply(m, Reset(k, m.es[k].cap.free)) == m
  {
    hide FreeAbove, Pow2;
    assert WithCap(m.es, k, m.es[k].cap) == m.es;
  }

  /** What a reset has done so far: the step that moves the free index down to where memory is cleared. */
  ghost predicate ResetDone(m0: Mdb, m: Mdb, mem0: Memory, mem: Memory, b0: Bytes, b: Bytes, k: nat, s: nat,
                            free: nat) {
    && Enabled(m0, Reset(k, free)) && m == Apply(m0, Reset(k, free))
    && Refreed(mem0, mem, s, free)
    && Wiped(b0, b, m0.es[k].cap, free)
  }

  lemma ResetStarts(mem: Memory, m: Mdb, k: nat, s: nat, b: Bytes)
    requires Represents(mem, m) && Occupies(m.es, k, s) && m.es[k].cap.Untyped? && NoChildrenAt(m.es, k)
    ensures s in mem && mem[s].cap == m.es[k].cap && EntryOk(m.es[k])
    ensures MIN_UNTYPED_BITS <= m.es[k].cap.bits && FreeOffset(m.es[k].cap) <= Pow2(m.es[k].cap.bits)
    ensures m.es[k].cap.ptr % 16 == 0
    ensures ResetDone(m, m, mem, mem, b, b, k, s, m.es[k].cap.free)
  {
    RetypeFacts(mem, m, k);
    hide Inv;
    OccupiedFacts(mem, m, k);
    hide Represents, NoChildrenAt, Enabled, Apply;
    ResetStep(mem, m, k, s, m.es[k].cap.free);
    ResetNothing(m, k);
    NotWiped(b, m.es[k].cap);
  }

  lemma ResetGoesOn(m0: Mdb, m1: Mdb, m2: Mdb, mem0: Memory, mem1: Memory, mem2: Memory,
                    k: nat, s: nat, f: nat, g: nat, b0: Bytes, b1: Bytes, b2: Bytes)
    requires ResetDone(m0, m1, mem0, mem1, b0, b1, k, s, f) && Wiped(b0, b2, m0.es[k].cap, g)
    requires Enabled(m1, Reset(k, g)) && m2 == Apply(m1, Reset(k, g))
    requires Refreed(mem1, mem2, s, g) && g <= f
    ensures ResetDone(m0, m2, mem0, mem2, b0, b2, k, s, g)
  {
    forall j: nat | j < |m0.es| && Derived(m0.es, k, j)
      ensures ObjectEnd(m0.es[j].cap) <= ObjectBase(m0.es[k].cap) + g * 16
    {
      assert Derived(m1.es, k, j);
    }
    hide Wiped;
    assert Enabled(m0, Reset(k, g));
  }

  lemma ResetFacts(m0: Mdb, m: Mdb, mem0: Memory, mem: Memory, b0: Bytes, b: Bytes, k: nat, s: nat, free: nat)
    requires ResetDone(m0, m, mem0, mem, b0, b, k, s, free)
    ensures k < |m0.es| && m0.es[k].cap.Untyped? && Wiped(b0, b, m0.es[k].cap, free) && mem.Keys == mem0.Keys
    ensures k < |m.es| && m.es[k].cap == SetFree(m0.es[k].cap, free)
  {
    hide FreeAbove, Wiped;
  }

  lemma WordAligned(x: nat, y: nat)
    requires x % 16 == 0 && y % 16 == 0
    ensures (x + y) % 8 == 0
  {
  }

  /** One chunk is cleared, then the free index moves down to it. */
  method ClearChunk(c: Slots, r: Ram, parent: nat, offset: nat, size: nat,
                    ghost k: nat, ghost m0: Mdb, ghost mem0: Memory, ghost b0: Bytes)
    requires c.Valid() && Occupies(c.mdb.es, k, parent) && c.mdb.es[k].cap.Untyped? && NoChildrenAt(c.mdb.es, k)
    requires ResetDone(m0, c.mdb, mem0, c.mem, b0, r.byte, k, parent, c.mdb.es[k].cap.free)
             && ZeroFrom(m0.es[k].cap, b0)
    requires c.mdb.es[k].cap.ptr % 16 == 0 && offset % 16 == 0 && size % 16 == 0
    requires offset <= FreeOffset(c.mdb.es[k].cap) <= offset + size <= Pow2(c.mdb.es[k].cap.bits)
    modifies c`mem, c`mdb, r
    ensures c.Valid() && Occupies(c.mdb.es, k, parent) && NoChildrenAt(c.mdb.es, k)
    ensures c.mdb.es[k].cap == SetFree(old(c.mdb.es[k].cap), offset / 16)
    ensures ResetDone(m0, c.mdb, mem0, c.mem, b0, r.byte, k, parent, offset / 16)
  {
    hide Represents, NoChildrenAt, ResetDone, ZeroFrom, Enabled, Apply, Refreed, Wiped, Pow2, SameBytes, Cleared;
    ghost var m1, mem1, b1, f := c.mdb, c.mem, r.byte, c.mdb.es[k].cap.free;
    ResetFacts(m0, m1, mem0, mem1, b0, b1, k, parent, f);
    HeldCap(c.mem, c.mdb, k, parent);
    var at := c.mem[parent].cap.ptr + offset;
    WordAligned(c.mem[parent].cap.ptr, offset);
    WordAligned(size, 0);
    r.ClearMemory(at, size);
    WipeChunk(b0, b1, r.byte, m0.es[k].cap, f, offset, size);
    SetFreeIndex(c, parent, offset / 16, k);
    ResetGoesOn(m0, m1, c.mdb, mem0, mem1, c.mem, k, parent, f, offset / 16, b0, b1, r.byte);
    ResetFacts(m0, c.mdb, mem0, c.mem, b0, r.byte, k, parent, offset / 16);
  }

  /** resetUntypedCap: cleared chunk by chunk from the top, with a preemption point after each. */
  method ResetUntyped(c: Slots, r: Ram, parent: nat, chunk: nat, ghost k: nat) returns (status: Status)
    requires c.Valid() && Occupies(c.mdb.es, k, parent) && c.mdb.es[k].cap.Untyped? && NoChildrenAt(c.mdb.es, k)
    requires MIN_UNTYPED_BITS <= chunk && c.mdb.es[k].cap.bits < WORD_BITS && ZeroFrom(c.mdb.es[k].cap, r.byte)
    modifies c`mem, c`mdb, r
    ensures c.Valid() && Occupies(c.mdb.es, k, parent) && NoChildrenAt(c.mdb.es, k) && c.mdb.es[k].cap.Untyped?
    ensures var free := c.mdb.es[k].cap.free;
            && ResetDone(old(c.mdb), c.mdb, old(c.mem), c.mem, old(r.byte), r.byte, k, parent, free)
            && (if status.Done? then free == 0 else free < old(c.mdb.es[k].cap.free))
  {
    hide Represents, NoChildrenAt, ResetDone, ZeroFrom, Enabled, Apply, Refreed, Wiped, Pow2, RoundDown, WellFormed;
    ghost var m0, mem0, b0 := c.mdb, c.mem, r.byte;
    ResetStarts(c.mem, c.mdb, k, parent, r.byte);
    var u := c.mem[parent].cap;
    var offset, size := FreeOffset(u), Pow2(chunk);
    if offset == 0 {
      return Done;
    }
    if u.bits < chunk {
      Chunks(u.bits, u.bits);
      ClearChunk(c, r, parent, 0, Pow2(u.bits), k, m0, mem0, b0);
      return Done;
    }
    FirstChunk(offset, u.bits, chunk);
    Chunks(u.bits, chunk);
    SmallerThanWord(u.bits);
    offset := RoundDown(offset - 1, chunk);
    while offset != WORD - size
      invariant c.Valid() && Occupies(c.mdb.es, k, parent) && NoChildrenAt(c.mdb.es, k)
      invariant c.mdb.es[k].cap.Untyped? && c.mdb.es[k].cap == SetFree(u, c.mdb.es[k].cap.free)
      invariant ResetDone(m0, c.mdb, mem0, c.mem, b0, r.byte, k, parent, c.mdb.es[k].cap.free)
      invariant c.mdb.es[k].cap.free <= u.free
      invariant if offset == WORD - size then c.mdb.es[k].cap.free == 0 else
                  && 0 <= offset < FreeOffset(c.mdb.es[k].cap) <= offset + size <= Pow2(u.bits)
                  && offset % size == 0 && offset % 16 == 0
      decreases if offset == WORD - size then 0 else offset + size
    {
      ClearChunk(c, r, parent, offset, size, k, m0, mem0, b0);
      status := PreemptionPoint();
      if status.Preempted? {
        return;
      }
      PreviousChunk(offset, chunk);
      offset := (offset - size) % WORD;
    }
    status := Done;
  }

  lemma SmallerThanWord(bits: nat)
    requires bits < WORD_BITS
    ensures Pow2(bits) < WORD
  {
    Pow2Word();
    Pow2Monotone(bits + 1, WORD_BITS);
  }

  lemma PreviousMultiple(a: nat, s: nat)
    requires s > 0 && a > 0 && a % s == 0
    ensures s <= a && (a - s) % s == 0
  {
    QuotientRemainder(a, s);
    MulLe(1, a / s, s);
    MulSum(a / s, 1, s);
    MultipleModulo(a / s - 1, s);
  }

  lemma PreviousChunk(offset: nat, chunk: nat)
    requires MIN_UNTYPED_BITS <= chunk && offset % Pow2(chunk) == 0 && offset + Pow2(chunk) < WORD
    ensures var p := (offset - Pow2(chunk)) % WORD;
            if offset == 0 then p == WORD - Pow2(chunk)
            else p == offset - Pow2(chunk) && p % Pow2(chunk) == 0 && p % 16 == 0
  {
    hide Pow2;
    if offset > 0 {
      PreviousMultiple(offset, Pow2(chunk));
      SixteenDivides(offset - Pow2(chunk), chunk);
    }
  }

  // ------------------------------------------------------------------ retype

  /** The step on lists and memory that a retype with these arguments stands for. */
  function StepFor(k: nat, dest: seq<nat>, t: ObjectType, userSize: nat, base: nat): (s: Step)
    requires base + |dest| * Pow2(ObjectSizeBits(t, userSize)) <= WORD
  {
    RetypeStep(k, dest, NewCaps(t, userSize, base, |dest|), base, base + |dest| * Pow2(ObjectSizeBits(t, userSize)))
  }

  lemma DecodedStep(m: Mdb, k: nat, dest: seq<nat>, t: ObjectType, userSize: nat, base: nat)
    requires k < |m.es| && EntryOk(m.es[k]) && m.es[k].cap.Untyped? && |dest| >= 1 && LargeEnough(t, userSize)
    requires DecodeRetype(NoChildrenAt(m.es, k), m.es[k].cap, ObjectSizeBits(t, userSize), |dest|) == Place(base)
    ensures base + |dest| * Pow2(ObjectSizeBits(t, userSize)) <= WORD && Enabled(m, StepFor(k, dest, t, userSize, base))
  {
    DecodedRetype(NoChildrenAt(m.es, k), m.es[k].cap, t, userSize, |dest|, base);
    assert m.es[k].cap.ptr % 16 == 0;
    hide NoChildrenAt, Ascending, NewCaps, DecodeRetype, ObjectSizeBits, LargeEnough;
    hide WellFormed, StartOffset, EntryOk, Pow2;
  }

  /** Resetting first changes nothing in what a retype does to the lists, nor in the place it chooses. */
  lemma ResetThenRetype(m: Mdb, k: nat, s: Step)
    requires Enabled(m, s) && s.RetypeStep? && s.src == k && Enabled(m, Reset(k, 0))
    ensures var r := Apply(m, Reset(k, 0));
            RetypeUntyped(r, k, s.slots, s.caps, s.top) == RetypeUntyped(m, k, s.slots, s.caps, s.top)
  {
    hide Ascending, FreeAbove, NoChildrenAt, Pow2, CreateNewObjects;
    var u, r, f := m.es[k].cap, Apply(m, Reset(k, 0)), (s.top - m.es[k].cap.ptr) / 16;
    assert WithCap(r.es, k, SetFree(SetFree(u, 0), f)) == WithCap(m.es, k, SetFree(u, f));
  }

  lemma RetypeStarts(mem: Memory, m: Mdb, k: nat, s: nat, b: Bytes)
    requires Represents(mem, m) && Occupies(m.es, k, s) && m.es[k].cap.Untyped? && FreeIsZero(m.es, b)
    ensures NeighboursIn(mem, s) && s in mem && mem[s].cap == m.es[k].cap && ZeroFrom(m.es[k].cap, b)
    ensures NoChildren(mem, s) <==> NoChildrenAt(m.es, k)
    ensures EntryOk(m.es[k]) && WellFormed(m.es[k].cap) && FreeOffset(m.es[k].cap) <= Pow2(m.es[k].cap.bits)
  {
    RetypeFacts(mem, m, k);
    hide Inv, NoChildren, NoChildrenAt;
    OccupiedFacts(mem, m, k);
    hide Represents, NeighboursIn, ZeroFrom;
    assert ZeroFrom(m.es[k].cap, b);
  }

  /** The memory and lists after a reset and a retype are those of the retype step. */
  lemma RetypeEnds(m: Mdb, b: Bytes, b': Bytes, s: Step)
    requires FreeIsZero(m.es, b) && s.RetypeStep? && Enabled(m, s)
    requires var u := m.es[s.src].cap; if NoChildrenAt(m.es, s.src) then Wiped(b, b', u, 0) else b' == b
    ensures SameBytes(b', NextBytes(m, b, On(s))) && FreeIsZero(Apply(m, s).es, b')
    ensures forall a: nat | s.base <= a < s.top :: b'(a) == 0
  {
    RetypeKeepsZero(m, b, s);
    forall a: nat | s.base <= a < s.top ensures NextBytes(m, b, On(s))(a) == 0 { RetypedIsZero(m, b, s, a); }
    hide Apply, Ascending, NoChildrenAt;
    SameBytesZero(Apply(m, s).es, NextBytes(m, b, On(s)), b');
  }

  lemma SameBytesZero(es: seq<Entry>, b: Bytes, b': Bytes)
    requires FreeIsZero(es, b) && SameBytes(b', b)
    ensures FreeIsZero(es, b')
  {
    forall i | 0 <= i < |es| ensures ZeroFrom(es[i].cap, b') { assert ZeroFrom(es[i].cap, b); }
  }

  lemma SamePlace(u: Cap, bits: nat, count: nat)
    requires u.Untyped? && FreeOffset(u) <= Pow2(u.bits)
    ensures DecodeRetype(true, SetFree(u, 0), bits, count) == DecodeRetype(true, u, bits, count)
  {
  }

  lemma RefreedKeeps(mem0: Memory, mem: Memory, s: nat, free: nat, dest: seq<nat>)
    requires Refreed(mem0, mem, s, free) && FreeDestinations(mem0, dest)
    ensures FreeDestinations(mem, dest)
  {
    forall i | 0 <= i < |dest| ensures dest[i] != s { assert mem0[dest[i]] == EMPTY_CTE; }
  }

  /** A finished reset leaves everything ready for the retype that was decoded before it. */
  lemma ResetReady(m0: Mdb, m: Mdb, mem0: Memory, mem: Memory, b0: Bytes, b: Bytes, k: nat, s: nat, dest: seq<nat>,
                   bits: nat, count: nat)
    requires ResetDone(m0, m, mem0, mem, b0, b, k, s, 0) && FreeDestinations(mem0, dest)
    requires m0.es[k].cap.Untyped? && FreeOffset(m0.es[k].cap) <= Pow2(m0.es[k].cap.bits)
    ensures FreeDestinations(mem, dest) && mem.Keys == mem0.Keys
    ensures forall x | x in mem && x != s :: mem[x].cap == mem0[x].cap
    ensures k < |m.es| && m.es[k].cap == SetFree(m0.es[k].cap, 0) && FreeOffset(m.es[k].cap) <= Pow2(m.es[k].cap.bits)
    ensures DecodeRetype(true, m.es[k].cap, bits, count) == DecodeRetype(true, m0.es[k].cap, bits, count)
  {
    ResetFacts(m0, m, mem0, mem, b0, b, k, s, 0);
    RefreedKeeps(mem0, mem, s, 0, dest);
    SamePlace(m0.es[k].cap, bits, count);
  }

  /** The lists and the bytes are those after the step, and the step's objects lie in zeroed memory. */
  ghost predicate RetypeDone(m0: Mdb, m: Mdb, b0: Bytes, b: Bytes, s: Step) {
    && s.RetypeStep? && Enabled(m0, s) && m == Apply(m0, s)
    && SameBytes(b, NextBytes(m0, b0, On(s)))
    && forall a: nat | s.base <= a < s.top :: b(a) == 0
  }

  lemma ResetZero(m0: Mdb, m: Mdb, mem0: Memory, mem: Memory, b0: Bytes, b: Bytes, k: nat, s: nat, free: nat)
    requires ResetDone(m0, m, mem0, mem, b0, b, k, s, free) && FreeIsZero(m0.es, b0)
    ensures FreeIsZero(m.es, b)
  {
    hide Enabled, Apply, FreeIsZero, SameBytes, Refreed;
    ResetBytes(m0, b0, b, k, free);
    ResetKeepsZero(m0, b0, Reset(k, free));
    SameBytesZero(m.es, NextBytes(m0, b0, On(Reset(k, free))), b);
  }

  lemma ResetBytes(m: Mdb, b0: Bytes, b: Bytes, k: nat, free: nat)
    requires Enabled(m, Reset(k, free)) && Wiped(b0, b, m.es[k].cap, free)
    ensures SameBytes(b, NextBytes(m, b0, On(Reset(k, free))))
  {
    hide FreeAbove;
  }

  /** Whether or not there was a reset, the outcome is the retype step. */
  lemma RetypeIsStep(m0: Mdb, m1: Mdb, m2: Mdb, mem0: Memory, mem1: Memory, mem2: Memory, b0: Bytes, b: Bytes,
                     parent: nat, s: Step)
    requires FreeIsZero(m0.es, b0) && s.RetypeStep? && Enabled(m0, s)
    requires if NoChildrenAt(m0.es, s.src) then ResetDone(m0, m1, mem0, mem1, b0, b, s.src, parent, 0)
             else m1 == m0 && mem1 == mem0 && b == b0
    requires s.src < |m1.es| && m1.es[s.src].cap.Untyped? && m1.es[s.src].cap.ptr <= s.top
    requires m2 == RetypeUntyped(m1, s.src, s.slots, s.caps, s.top)
    requires KeptSoFar(mem1, mem2, s.slots, s.caps, [], [])
    ensures RetypeDone(m0, m2, b0, b, s) && FreeIsZero(m2.es, b) && KeptSoFar(mem0, mem2, s.slots, s.caps, [], [])
  {
    hide FreeIsZero, NoChildrenAt, RetypeUntyped, KeptSoFar, SameBytes, Ascending, Wiped, FreeAbove, Pow2, StartOffset;
    if NoChildrenAt(m0.es, s.src) {
      ResetThenRetype(m0, s.src, s);
      NothingElse(mem0, mem1, parent, 0);
      UntypedChangesNothing(mem0, mem1, mem2, parent, s.slots, s.caps);
    }
    RetypeEnds(m0, b0, b, s);
  }

  lemma NothingElse(mem0: Memory, mem: Memory, s: nat, free: nat)
    requires Refreed(mem0, mem, s, free)
    ensures mem.Keys == mem0.Keys && s in mem && mem0[s].cap.Untyped? && mem[s].cap.Untyped?
    ensures forall x | x in mem && x != s :: mem[x].cap == mem0[x].cap
  {
  }

  /** decodeUntypedInvocation and invokeUntyped_Retype, with the reset in between. */
  method InvokeRetype(c: Slots, r: Ram, parent: nat, dest: seq<nat>, t: ObjectType, userSize: nat, chunk: nat,
                      ghost k: nat)
    returns (status: Status, place: Placement)
    requires c.Valid() && Occupies(c.mdb.es, k, parent) && c.mdb.es[k].cap.Untyped? && FreeDestinations(c.mem, dest)
    requires |dest| >= 1 && LargeEnough(t, userSize) && MIN_UNTYPED_BITS <= chunk && c.mdb.es[k].cap.bits < WORD_BITS
    requires FreeIsZero(c.mdb.es, r.byte)
    modifies c, r
    ensures c.Valid() && FreeIsZero(c.mdb.es, r.byte)
    ensures FreeOffset(old(c.mdb.es[k].cap)) <= Pow2(old(c.mdb.es[k].cap.bits))
    ensures place ==
            DecodeRetype(NoChildrenAt(old(c.mdb.es), k), old(c.mdb.es[k].cap), ObjectSizeBits(t, userSize), |dest|)
    ensures place.NotEnoughMemory? ==>
            status.Done? && c.mem == old(c.mem) && c.mdb == old(c.mdb) && r.byte == old(r.byte)
    ensures status.Preempted? ==>
              && NoChildrenAt(old(c.mdb.es), k) && k < |c.mdb.es| && c.mdb.es[k].cap.Untyped?
              && ResetDone(old(c.mdb), c.mdb, old(c.mem), c.mem, old(r.byte), r.byte, k, parent, c.mdb.es[k].cap.free)
              && c.mdb.es[k].cap.free < old(c.mdb.es[k].cap.free)
    ensures place.Place? && status.Done? ==>
              && place.base + |dest| * Pow2(ObjectSizeBits(t, userSize)) <= WORD
              && RetypeDone(old(c.mdb), c.mdb, old(r.byte), r.byte, StepFor(k, dest, t, userSize, place.base))
              && KeptSoFar(old(c.mem), c.mem, dest, NewCaps(t, userSize, place.base, |dest|), [], [])
              && HoldNew(c.mem, dest, t, userSize, place.base) && c.mem.Keys == old(c.mem.Keys)
              && (forall x | x in c.mem && x !in dest && x != parent :: c.mem[x].cap == old(c.mem[x].cap))
  {
    hide Represents, Inv, NoChildren, NoChildrenAt, DecodeRetype, ObjectSizeBits, LargeEnough, FreeDestinations, Pow2;
    hide ResetDone, RetypeDone, FreeIsZero, ZeroFrom, WellFormed, EntryOk, Enabled;
    hide Apply, KeptSoFar, NewCaps, SameBytes;
    hide RetypeUntyped, NextBytes, NeighboursIn, HoldNew;
    ghost var m0, mem0, b0 := c.mdb, c.mem, r.byte;
    RetypeStarts(c.mem, c.mdb, k, parent, r.byte);
    var u, alone, bits := c.mem[parent].cap, NoChildren(c.mem, parent), ObjectSizeBits(t, userSize);
    place := DecodeRetype(alone, u, bits, |dest|);
    if place.NotEnoughMemory? {
      return Done, place;
    }
    DecodedStep(c.mdb, k, dest, t, userSize, place.base);
    if alone {
      status := ResetUntyped(c, r, parent, chunk, k);
      if status.Preempted? {
        ResetZero(m0, c.mdb, mem0, c.mem, b0, r.byte, k, parent, c.mdb.es[k].cap.free);
        return;
      }
      ResetReady(m0, c.mdb, mem0, c.mem, b0, r.byte, k, parent, dest, bits, |dest|);
    }
    status := Done;
    ghost var mem1, m1 := c.mem, c.mdb;
    c.PlaceObjects(parent, dest, t, userSize, place.base, k);
    RetypeIsStep(m0, m1, c.mdb, mem0, mem1, c.mem, b0, r.byte, parent, StepFor(k, dest, t, userSize, place.base));
  }
}
