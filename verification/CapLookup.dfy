/** Capability address lookup: the slow path's loop, the fast path's loop, and what both compute. */
module CapLookup {
  import opened Words
  import opened Arith
  import opened Caps

  /** The cap stored at each slot address; anything else reads as the null cap. */
  type Slots = map<nat, Cap>

  function Read(slots: Slots, address: nat): Cap {
    if address in slots then slots[address] else Null
  }

  /** What the kernel guarantees of every CNode cap. */
  predicate NodeOk(c: Cap) {
    c.CNode? ==> c.radix >= 1 && c.guardSize + c.radix <= WORD_BITS && c.guard < Pow2(c.guardSize)
  }

  predicate GraphOk(slots: Slots) {
    forall a :: a in slots ==> NodeOk(slots[a])
  }

  function SlotOf(node: Cap, index: nat): nat
    requires node.CNode?
  {
    node.ptr + 32 * index
  }

  datatype Fault =
    | InvalidRoot
    | GuardMismatch(guard: nat, bitsLeft: nat, guardSize: nat)
    | DepthMismatch(levelBits: nat, bitsLeft: nat)

  datatype Lookup =
    | Found(slot: nat, bitsRemaining: nat)
    | Failed(fault: Fault)

  // ------------------------------------------------------------------ what a lookup means

  /** The `size` bits of w just below bit n. */
  function Field(w: Word, n: nat, size: nat): (r: nat)
    requires size <= n
  {
    (w / Pow2(n - size)) % Pow2(size)
  }

  function Resolve(slots: Slots, node: Cap, cptr: Word, n: nat): (r: Lookup)
    requires NodeOk(node) && GraphOk(slots) && n <= WORD_BITS
    decreases n
  {
    if !node.CNode? then Failed(InvalidRoot)
    else if node.guardSize > n || Field(cptr, n, node.guardSize) != node.guard then
      Failed(GuardMismatch(node.guard, n, node.guardSize))
    else if node.guardSize + node.radix > n then
      Failed(DepthMismatch(node.guardSize + node.radix, n))
    else
      var left := n - node.guardSize - node.radix;
      var slot := SlotOf(node, Field(cptr, n - node.guardSize, node.radix));
      if left == 0 || !Read(slots, slot).CNode? then Found(slot, left)
      else Resolve(slots, Read(slots, slot), cptr, left)
  }

  function CapOf(slots: Slots, l: Lookup): Cap {
    match l
    case Found(slot, _) => Read(slots, slot)
    case Failed(_) => Null
  }

  // ------------------------------------------------------------------ 64-bit shifts

  function Shl(w: Word, k: nat): Word
    requires k < WORD_BITS
  {
    (w * Pow2(k)) % WORD
  }

  function Shr(w: Word, k: nat): (r: Word)
    requires k < WORD_BITS
  {
    DivideShrinks(w, Pow2(k));
    w / Pow2(k)
  }

  lemma DivideShrinks(w: nat, d: nat)
    requires d > 0
    ensures 0 <= w / d <= w
  {
    QuotientRemainder(w, d);
    MulLe(1, d, w / d);
  }

  /** Shifting left drops the bits above bit n. */
  lemma ShlKeepsLow(w: Word, n: nat)
    requires 0 < n <= WORD_BITS
    ensures Shl(w, WORD_BITS - n) == (w % Pow2(n)) * Pow2(WORD_BITS - n)
  {
    Pow2Word();
    Pow2Add(n, WORD_BITS - n);
    ScaledModulo(w, Pow2(n), Pow2(WORD_BITS - n));
  }

  /** Shifting left and then right picks out a bit field. */
  lemma ShiftsPickField(w: Word, n: nat, size: nat)
    requires 0 < size <= n <= WORD_BITS
    ensures Shr(Shl(w, WORD_BITS - n), WORD_BITS - size) == Field(w, n, size)
  {
    var low := w % Pow2(n);
    ShlKeepsLow(w, n);
    Pow2Add(n - size, WORD_BITS - n);
    ScaledDivide(low, Pow2(n - size), Pow2(WORD_BITS - n));
    Pow2Add(size, n - size);
    ModuloDivide(w, Pow2(size), Pow2(n - size));
  }

  lemma ShlTwice(w: Word, j: nat, k: nat)
    requires j + k < WORD_BITS
    ensures Shl(Shl(w, j), k) == Shl(w, j + k)
  {
    Pow2Word();
    var n := WORD_BITS - j - k;
    ShlKeepsLow(w, n + k);
    ShlKeepsLow(w, n);
    Pow2Add(n, k);
    Pow2Add(j, k);
    Pow2Add(n, j + k);
    var low := w % Pow2(n + k);
    MulAssoc(low, Pow2(j), Pow2(k));
    ScaledModulo(low, Pow2(n), Pow2(j + k));
    ModuloOfModulo(w, Pow2(n), Pow2(k));
  }

  // ------------------------------------------------------------------ the two loops

  /** resolveAddressBits */
  method ResolveAddressBits(slots: Slots, root: Cap, cptr: Word, depth: nat) returns (r: Lookup)
    requires NodeOk(root) && GraphOk(slots) && depth <= WORD_BITS
    ensures r == Resolve(slots, root, cptr, depth)
  {
    hide Shr, Field, GraphOk, Pow2;
    if !root.CNode? { return Failed(InvalidRoot); }
    var node: Cap, n: nat := root, depth;
    while true
      invariant node.CNode? && NodeOk(node) && n <= WORD_BITS
      invariant Resolve(slots, node, cptr, n) == Resolve(slots, root, cptr, depth)
      decreases n
    {
      var levelBits := node.radix + node.guardSize;
      var guard := Shr(cptr, (n - node.guardSize) % WORD_BITS) % Pow2(node.guardSize);
      if node.guardSize <= n { MaskedShift(cptr, n, node.guardSize); }
      if node.guardSize > n || guard != node.guard {
        return Failed(GuardMismatch(node.guard, n, node.guardSize));
      }
      if levelBits > n {
        return Failed(DepthMismatch(levelBits, n));
      }
      PlainShift(cptr, n - node.guardSize, node.radix);
      var slot := SlotOf(node, Shr(cptr, n - levelBits) % Pow2(node.radix));
      ReadOk(slots, slot);
      if n == levelBits {
        return Found(slot, 0);
      }
      n := n - levelBits;
      if !Read(slots, slot).CNode? {
        return Found(slot, n);
      }
      node := Read(slots, slot);
    }
  }

  /** The shift amount is masked to avoid shifting by the whole word; then the guard is empty anyway. */
  lemma MaskedShift(w: Word, n: nat, size: nat)
    requires size <= n <= WORD_BITS
    ensures Shr(w, (n - size) % WORD_BITS) % Pow2(size) == Field(w, n, size)
  {
    if size == 0 {
      hide Shr;
      assert Pow2(size) == 1;
      ModuloOne(Shr(w, n % WORD_BITS));
      ModuloOne(w / Pow2(n));
    } else {
      assert (n - size) % WORD_BITS == n - size;
    }
  }

  lemma PlainShift(w: Word, n: nat, size: nat)
    requires size <= n && n - size < WORD_BITS
    ensures Shr(w, n - size) % Pow2(size) == Field(w, n, size)
  {
  }

  lemma ReadOk(slots: Slots, address: nat)
    requires GraphOk(slots)
    ensures NodeOk(Read(slots, address))
  {
  }

  lemma ModuloOne(x: int)
    ensures x % 1 == 0
  {
  }

  /** lookup_fp; the null cap stands for failure. */
  method LookupFast(slots: Slots, root: Cap, cptr: Word) returns (cap: Cap)
    requires NodeOk(root) && GraphOk(slots)
    ensures cap == CapOf(slots, Resolve(slots, root, cptr, WORD_BITS))
  {
    if !root.CNode? { return Null; }
    var bits := 0;
    cap := root;
    var again := true;
    while again
      invariant NodeOk(cap) && again == (bits < WORD_BITS && cap.CNode?)
      invariant again ==>
        CapOf(slots, Resolve(slots, cap, cptr, WORD_BITS - bits)) == CapOf(slots, Resolve(slots, root, cptr, WORD_BITS))
      invariant !again ==>
        (if bits > WORD_BITS then Null else cap) == CapOf(slots, Resolve(slots, root, cptr, WORD_BITS))
      decreases again, WORD_BITS - bits
    {
      var n := WORD_BITS - bits;
      var guardBits, radixBits := cap.guardSize, cap.radix;
      var cptr2 := Shl(cptr, bits);
      if guardBits > 0 && Shr(cptr2, WORD_BITS - guardBits) != cap.guard {
        if guardBits <= n { ShiftsPickField(cptr, n, guardBits); }
        return Null;
      }
      var index := Shr(Shl(cptr2, guardBits), WORD_BITS - radixBits);
      FastLevel(cptr, n, guardBits, radixBits);
      var slot := SlotOf(cap, index);
      cap := Read(slots, slot);
      bits := bits + guardBits + radixBits;
      again := bits < WORD_BITS && cap.CNode?;
    }
    if bits > WORD_BITS { return Null; }
  }

  /** One level of the fast path reads the same guard and index as the slow path. */
  lemma FastLevel(w: Word, n: nat, guardBits: nat, radixBits: nat)
    requires 0 < n <= WORD_BITS && 0 < radixBits && guardBits + radixBits <= WORD_BITS
    ensures 0 < guardBits <= n ==> Shr(Shl(w, WORD_BITS - n), WORD_BITS - guardBits) == Field(w, n, guardBits)
    ensures guardBits == 0 ==> Field(w, n, guardBits) == 0
    ensures guardBits + radixBits <= n ==>
              Shr(Shl(Shl(w, WORD_BITS - n), guardBits), WORD_BITS - radixBits) == Field(w, n - guardBits, radixBits)
  {
    if 0 < guardBits <= n { ShiftsPickField(w, n, guardBits); }
    assert Pow2(0) == 1;
    if guardBits + radixBits <= n {
      ShlTwice(w, WORD_BITS - n, guardBits);
      ShiftsPickField(w, n - guardBits, radixBits);
    }
  }

  /** lookupCap on the slow path. */
  method LookupCap(slots: Slots, root: Cap, cptr: Word) returns (cap: Cap)
    requires NodeOk(root) && GraphOk(slots)
    ensures cap == CapOf(slots, Resolve(slots, root, cptr, WORD_BITS))
  {
    var l := ResolveAddressBits(slots, root, cptr, WORD_BITS);
    cap := if l.Found? then Read(slots, l.slot) else Null;
  }

  /** The fast path and the slow path find the same cap, on every graph and for every pointer. */
  method LookupBoth(slots: Slots, root: Cap, cptr: Word) returns (fast: Cap, slow: Cap)
    requires NodeOk(root) && GraphOk(slots)
    ensures fast == slow
  {
    fast := LookupFast(slots, root, cptr);
    slow := LookupCap(slots, root, cptr);
  }

  // ------------------------------------------------------------------ addresses name paths

  /** Follows `indices` from node: at each level the address holds the node's guard, then the index. */
  predicate IsPath(slots: Slots, node: Cap, indices: seq<nat>)
    decreases |indices|
  {
    && node.CNode? && indices != []
    && indices[0] < Pow2(node.radix)
    && (|indices| > 1 ==> IsPath(slots, Read(slots, SlotOf(node, indices[0])), indices[1..]))
  }

  function PathBits(slots: Slots, node: Cap, indices: seq<nat>): nat
    requires IsPath(slots, node, indices)
    decreases |indices|
  {
    node.guardSize + node.radix +
    if |indices| == 1 then 0 else PathBits(slots, Read(slots, SlotOf(node, indices[0])), indices[1..])
  }

  function PathSlot(slots: Slots, node: Cap, indices: seq<nat>): nat
    requires IsPath(slots, node, indices)
    decreases |indices|
  {
    if |indices| == 1 then SlotOf(node, indices[0])
    else PathSlot(slots, Read(slots, SlotOf(node, indices[0])), indices[1..])
  }

  /** The bits of high followed by `bits` bits of low. */
  function Concat(high: nat, bits: nat, low: nat): nat {
    MulNonNegative(high, Pow2(bits));
    high * Pow2(bits) + low
  }

  /** The address of the end of a path: guards and indices written one after the other. */
  function Address(slots: Slots, node: Cap, indices: seq<nat>): nat
    requires IsPath(slots, node, indices)
    decreases |indices|
  {
    var rest := if |indices| == 1 then 0 else PathBits(slots, Read(slots, SlotOf(node, indices[0])), indices[1..]);
    var low := if |indices| == 1 then 0 else Address(slots, Read(slots, SlotOf(node, indices[0])), indices[1..]);
    Concat(Concat(node.guard, node.radix, indices[0]), rest, low)
  }

  lemma {:induction false} AddressFits(slots: Slots, node: Cap, indices: seq<nat>)
    requires NodeOk(node) && GraphOk(slots) && IsPath(slots, node, indices)
    ensures Address(slots, node, indices) < Pow2(PathBits(slots, node, indices))
    decreases |indices|
  {
    assert Pow2(0) == 1;
    ConcatFits(node.guard, node.guardSize, node.radix, indices[0]);
    var single := |indices| == 1;
    var next := Read(slots, SlotOf(node, indices[0]));
    var rest := if single then 0 else PathBits(slots, next, indices[1..]);
    var low := if single then 0 else Address(slots, next, indices[1..]);
    if !single { AddressFits(slots, next, indices[1..]); }
    ConcatFits(Concat(node.guard, node.radix, indices[0]), node.guardSize + node.radix, rest, low);
  }

  lemma ConcatFits(high: nat, highBits: nat, bits: nat, low: nat)
    requires high < Pow2(highBits) && low < Pow2(bits)
    ensures Concat(high, bits, low) < Pow2(highBits + bits)
  {
    Pow2Add(highBits, bits);
    MulLe(high + 1, Pow2(highBits), Pow2(bits));
    MulSum(high, 1, Pow2(bits));
  }

  /** In a word whose low n bits are a level followed by `rest` bits, the fields are the guard and the index. */
  lemma LevelFields(w: Word, n: nat, rest: nat, guardSize: nat, radix: nat, guard: nat, index: nat, low: nat)
    requires n == guardSize + radix + rest && n <= WORD_BITS
    requires guard < Pow2(guardSize) && index < Pow2(radix) && low < Pow2(rest)
    requires w % Pow2(n) == Concat(Concat(guard, radix, index), rest, low)
    ensures Field(w, n, guardSize) == guard
    ensures Field(w, n - guardSize, radix) == index
    ensures w % Pow2(rest) == low
  {
    hide Pow2, Concat;
    var level := Concat(guard, radix, index);
    ConcatFits(guard, guardSize, radix, index);
    SplitLow(w, guardSize + radix, rest, level, low);
    var above := w / Pow2(rest);
    assert above % Pow2(guardSize + radix) == level;
    SplitLow(above, guardSize, radix, guard, index);
    Pow2Add(radix, rest);
    DivideTwice(w, Pow2(rest), Pow2(radix));
  }

  lemma SplitLow(w: nat, highBits: nat, bits: nat, high: nat, low: nat)
    requires high < Pow2(highBits) && low < Pow2(bits)
    requires w % Pow2(highBits + bits) == Concat(high, bits, low)
    ensures (w / Pow2(bits)) % Pow2(highBits) == high && w % Pow2(bits) == low
  {
    var a, t := Pow2(highBits), Pow2(bits);
    Pow2Add(highBits, bits);
    Pow2Add(bits, highBits);
    ModuloDivide(w, a, t);
    DivideUnique(w % (a * t), t, high, low);
    ModuloOfModulo(w, t, a);
  }

  lemma JoinLow(w: nat, highBits: nat, bits: nat)
    ensures w % Pow2(highBits + bits) == Concat((w / Pow2(bits)) % Pow2(highBits), bits, w % Pow2(bits))
  {
    var a, t := Pow2(highBits), Pow2(bits);
    Pow2Add(highBits, bits);
    Pow2Add(bits, highBits);
    ModuloDivide(w, a, t);
    ModuloOfModulo(w, t, a);
    QuotientRemainder(w % (a * t), t);
  }

  lemma JoinLevel(w: Word, n: nat, rest: nat, guardSize: nat, radix: nat)
    requires n == guardSize + radix + rest && n <= WORD_BITS
    ensures w % Pow2(n)
         == Concat(Concat(Field(w, n, guardSize), radix, Field(w, n - guardSize, radix)), rest, w % Pow2(rest))
  {
    hide Pow2, Concat;
    JoinLow(w, guardSize + radix, rest);
    JoinHigh(w, n, rest, guardSize, radix);
    assert guardSize + radix + rest == n;
  }

  lemma JoinHigh(w: Word, n: nat, rest: nat, guardSize: nat, radix: nat)
    requires n == guardSize + radix + rest && n <= WORD_BITS
    ensures (w / Pow2(rest)) % Pow2(guardSize + radix)
         == Concat(Field(w, n, guardSize), radix, Field(w, n - guardSize, radix))
  {
    hide Pow2, Concat;
    assert n - guardSize == radix + rest && n - guardSize - radix == rest;
    JoinLow(w / Pow2(rest), guardSize, radix);
    Pow2Add(radix, rest);
    DivideTwice(w, Pow2(rest), Pow2(radix));
  }

  // ------------------------------------------------------------------ where every lookup ends

  /** The n bits of the pointer start with the address of the path, and `left` bits follow. */
  predicate Spells(slots: Slots, node: Cap, indices: seq<nat>, cptr: Word, n: nat, left: nat) {
    && IsPath(slots, node, indices) && PathBits(slots, node, indices) + left == n
    && (cptr / Pow2(left)) % Pow2(PathBits(slots, node, indices)) == Address(slots, node, indices)
  }

  /** A field of the pointer is a field of its upper part. */
  lemma FieldOfUpper(w: Word, left: nat, n: nat, size: nat)
    requires size + left <= n
    ensures 0 <= w / Pow2(left) < WORD && Field(w / Pow2(left), n - left, size) == Field(w, n, size)
  {
    hide Pow2;
    DivideShrinks(w, Pow2(left));
    Pow2Add(n - left - size, left);
    DivideTwice(w, Pow2(left), Pow2(n - left - size));
  }

  /** A pointer that spells a path has the guard and the first index, and then spells the rest. */
  lemma FirstLevel(slots: Slots, node: Cap, indices: seq<nat>, cptr: Word, n: nat, left: nat)
    requires NodeOk(node) && GraphOk(slots) && n <= WORD_BITS && Spells(slots, node, indices, cptr, n, left)
    ensures node.guardSize + node.radix <= n && Field(cptr, n, node.guardSize) == node.guard
    ensures Field(cptr, n - node.guardSize, node.radix) == indices[0]
    ensures var rest := n - node.guardSize - node.radix;
            if |indices| == 1 then rest == left
            else left < rest && Spells(slots, Read(slots, SlotOf(node, indices[0])), indices[1..], cptr, rest, left)
  {
    var single := |indices| == 1;
    var next := Read(slots, SlotOf(node, indices[0]));
    var rest := if single then 0 else PathBits(slots, next, indices[1..]);
    var low := if single then 0 else Address(slots, next, indices[1..]);
    assert Pow2(0) == 1;
    ReadOk(slots, SlotOf(node, indices[0]));
    hide Pow2, Concat, GraphOk;
    if !single { AddressFits(slots, next, indices[1..]); }
    FieldOfUpper(cptr, left, n, node.guardSize);
    FieldOfUpper(cptr, left, n - node.guardSize, node.radix);
    LevelFields(cptr / Pow2(left), n - left, rest, node.guardSize, node.radix, node.guard, indices[0], low);
  }

  /** Lookup follows every path that the pointer spells, to its end. */
  lemma {:induction false} ResolveFollows(slots: Slots, node: Cap, indices: seq<nat>, cptr: Word, n: nat, left: nat)
    requires NodeOk(node) && GraphOk(slots) && n <= WORD_BITS && Spells(slots, node, indices, cptr, n, left)
    ensures var slot := PathSlot(slots, node, indices);
            && NodeOk(Read(slots, slot))
            && Resolve(slots, node, cptr, n) ==
               if left == 0 || !Read(slots, slot).CNode? then Found(slot, left)
               else Resolve(slots, Read(slots, slot), cptr, left)
    decreases |indices|
  {
    FirstLevel(slots, node, indices, cptr, n, left);
    ReadOk(slots, SlotOf(node, indices[0]));
    hide Pow2, GraphOk, Field, Address, PathBits;
    if |indices| > 1 {
      var next := Read(slots, SlotOf(node, indices[0]));
      assert next.CNode?;
      ResolveFollows(slots, next, indices[1..], cptr, n - node.guardSize - node.radix, left);
    }
  }

  /** Why a lookup stops at a node, or at a cap that is none, with so many bits left. */
  predicate StopsAt(end: Cap, cptr: Word, left: nat, atRoot: bool, slot: nat, r: Lookup) {
    match r
    case Found(s, b) => !atRoot && s == slot && b == left && (left == 0 || !end.CNode?)
    case Failed(InvalidRoot) => atRoot && !end.CNode?
    case Failed(GuardMismatch(guard, b, size)) =>
      && end.CNode? && b == left && size == end.guardSize && guard == end.guard
      && (size > left || Field(cptr, left, size) != guard)
    case Failed(DepthMismatch(level, b)) =>
      && end.CNode? && b == left && level == end.guardSize + end.radix > left
      && end.guardSize <= left && Field(cptr, left, end.guardSize) == end.guard
  }

  /** So the cap looked up is the one at the end of the path that the pointer spells. */
  lemma {:induction false} CapAtEnd(slots: Slots, root: Cap, indices: seq<nat>, cptr: Word, left: nat)
    requires NodeOk(root) && GraphOk(slots) && Spells(slots, root, indices, cptr, WORD_BITS, left)
    requires left == 0 || !Read(slots, PathSlot(slots, root, indices)).CNode?
    ensures CapOf(slots, Resolve(slots, root, cptr, WORD_BITS)) == Read(slots, PathSlot(slots, root, indices))
  {
    ResolveFollows(slots, root, indices, cptr, WORD_BITS, left);
  }

  /** Every lookup, successful or not, has followed a path that the pointer spells, and says why it stopped there. */
  lemma {:induction false} LookupStops(slots: Slots, node: Cap, cptr: Word, n: nat)
    returns (indices: seq<nat>, left: nat, slot: nat)
    requires NodeOk(node) && GraphOk(slots) && n <= WORD_BITS
    ensures if indices == [] then left == n
            else Spells(slots, node, indices, cptr, n, left) && slot == PathSlot(slots, node, indices)
    ensures var end := if indices == [] then node else Read(slots, slot);
            StopsAt(end, cptr, left, indices == [], slot, Resolve(slots, node, cptr, n))
    decreases n
  {
    hide Pow2, Concat, GraphOk;
    indices, left, slot := [], n, 0;
    if node.CNode? && node.guardSize + node.radix <= n && Field(cptr, n, node.guardSize) == node.guard {
      left := n - node.guardSize - node.radix;
      var index := Field(cptr, n - node.guardSize, node.radix);
      slot := SlotOf(node, index);
      ReadOk(slots, slot);
      JoinHigh(cptr, n, left, node.guardSize, node.radix);
      indices := [index];
      OneLevel(slots, node, cptr, n, left, index);
      if left > 0 && Read(slots, slot).CNode? {
        var next := Read(slots, slot);
        var rest, l, s := LookupStops(slots, next, cptr, left);
        if rest != [] {
          NextLevel(slots, node, cptr, n, left, l, index, rest);
          indices, left, slot := [index] + rest, l, s;
        }
      }
    }
  }

  lemma OneLevel(slots: Slots, node: Cap, cptr: Word, n: nat, left: nat, index: nat)
    requires node.CNode? && NodeOk(node) && n == node.guardSize + node.radix + left && n <= WORD_BITS
    requires Field(cptr, n, node.guardSize) == node.guard && Field(cptr, n - node.guardSize, node.radix) == index
    ensures Spells(slots, node, [index], cptr, n, left)
  {
    JoinHigh(cptr, n, left, node.guardSize, node.radix);
    assert Pow2(0) == 1;
  }

  lemma NextLevel(slots: Slots, node: Cap, cptr: Word, n: nat, left: nat, l: nat, index: nat, rest: seq<nat>)
    requires node.CNode? && NodeOk(node) && n == node.guardSize + node.radix + left && n <= WORD_BITS
    requires Field(cptr, n, node.guardSize) == node.guard && Field(cptr, n - node.guardSize, node.radix) == index
    requires Spells(slots, Read(slots, SlotOf(node, index)), rest, cptr, left, l)
    ensures Spells(slots, node, [index] + rest, cptr, n, l)
    ensures PathSlot(slots, node, [index] + rest) == PathSlot(slots, Read(slots, SlotOf(node, index)), rest)
  {
    hide Pow2, Concat;
    assert ([index] + rest)[1..] == rest;
    FieldOfUpper(cptr, l, n, node.guardSize);
    FieldOfUpper(cptr, l, n - node.guardSize, node.radix);
    JoinLevel(cptr / Pow2(l), n - l, left - l, node.guardSize, node.radix);
  }

  /** In particular every path is found under its own address: lookup inverts addressing. */
  lemma AddressResolves(slots: Slots, node: Cap, indices: seq<nat>, cptr: Word)
    requires NodeOk(node) && GraphOk(slots) && IsPath(slots, node, indices)
    requires PathBits(slots, node, indices) <= WORD_BITS
    requires cptr % Pow2(PathBits(slots, node, indices)) == Address(slots, node, indices)
    ensures Resolve(slots, node, cptr, PathBits(slots, node, indices)) == Found(PathSlot(slots, node, indices), 0)
  {
    assert cptr / Pow2(0) == cptr;
    hide Pow2, Resolve, Address, PathBits, PathSlot, GraphOk;
    ResolveFollows(slots, node, indices, cptr, PathBits(slots, node, indices), 0);
  }

  /** And a lookup that uses up all bits has followed the path its pointer is the address of. */
  lemma ResolvedIsAddressed(slots: Slots, node: Cap, cptr: Word, n: nat) returns (indices: seq<nat>)
    requires NodeOk(node) && GraphOk(slots) && n <= WORD_BITS
    requires Resolve(slots, node, cptr, n).Found? && Resolve(slots, node, cptr, n).bitsRemaining == 0
    ensures IsPath(slots, node, indices) && PathBits(slots, node, indices) == n
    ensures Address(slots, node, indices) == cptr % Pow2(n)
    ensures PathSlot(slots, node, indices) == Resolve(slots, node, cptr, n).slot
  {
    var left, slot;
    indices, left, slot := LookupStops(slots, node, cptr, n);
    assert left == 0 && cptr / Pow2(0) == cptr;
  }
}
