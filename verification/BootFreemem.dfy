/** init_freemem: the tables of free and reserved memory after boot. */
module BootFreemem {
  import opened Words
  import opened Arith
  import opened BootMemory
  import opened BootScan

  /**
   * The reserved table holds nothing but its old contents, the free regions and the reserved ones;
   * and all of those if no entry was refused.
   */
  ghost predicate Recorded(table: seq<Region>, base: seq<Region>, found: seq<Region>, done: seq<Region>,
                           complete: bool) {
    forall x: int ::
      && (Covers(table, x) ==> Covers(base, x) || Covers(found, x) || Covers(done, x))
      && (complete && (Covers(base, x) || Covers(found, x) || Covers(done, x)) ==> Covers(table, x))
  }

  /** r shares no address with any region of s. */
  ghost predicate Apart(s: seq<Region>, r: Region) {
    forall x: int :: In(r, x) ==> !Covers(s, x)
  }

  lemma ApartIsDisjoint(s: seq<Region>, r: Region)
    requires Apart(s, r) && NonEmpty(s) && r.start < r.end
    ensures Disjoint(s, r)
  {
    forall i | 0 <= i < |s|
      ensures s[i].end <= r.start || r.end <= s[i].start
    {
      var x := if s[i].start <= r.start then r.start else s[i].start;
      if In(s[i], x) { IndexCovers(s, x, i); }
    }
  }

  lemma TableDisjoint(table: seq<Region>, base: seq<Region>, found: seq<Region>, done: seq<Region>, complete: bool,
                      r: Region)
    requires Recorded(table, base, found, done, complete) && NonEmpty(table) && r.start < r.end
    ensures Apart(base, r) && Apart(found, r) && Apart(done, r) ==> Disjoint(table, r)
  {
    if Apart(base, r) && Apart(found, r) && Apart(done, r) {
      assert Apart(table, r);
      ApartIsDisjoint(table, r);
    }
  }

  lemma RecordFound(t: seq<Region>, u: seq<Region>, base: seq<Region>, found: seq<Region>, done: seq<Region>,
                    before: bool, after: bool, r: Region)
    requires Recorded(t, base, found, done, before)
    requires if after then before && AddsCover(t, u, r) else AddsCover(t, u, r) || u == t
    ensures Recorded(u, base, found + [r], done, after)
  {
    forall x: int
      ensures Covers(found + [r], x) <==> Covers(found, x) || In(r, x)
    {
      CoversConcat(found, [r], x);
      CoversOne(r, x);
    }
  }

  lemma RecordDone(t: seq<Region>, u: seq<Region>, base: seq<Region>, found: seq<Region>, done: seq<Region>,
                   before: bool, after: bool, r: Region)
    requires Recorded(t, base, found, done, before)
    requires if after then before && AddsCover(t, u, r) else AddsCover(t, u, r) || u == t
    ensures Recorded(u, base, found, done + [r], after)
  {
    forall x: int
      ensures Covers(done + [r], x) <==> Covers(done, x) || In(r, x)
    {
      CoversConcat(done, [r], x);
      CoversOne(r, x);
    }
  }

  function Take(s: seq<Region>, n: nat): seq<Region> {
    if |s| <= n then s else s[..n]
  }

  class FreeMemory {
    const freemem: array<Region>
    const resv: ReservedTable
    /** Every non-empty region insert_region was given, every region passed on as reserved, and the table before. */
    ghost var found: seq<Region>
    ghost var done: seq<Region>
    ghost var base: seq<Region>
    /** No region has been refused for lack of a slot. */
    ghost var complete: bool

    constructor (slots: nat, resv: ReservedTable)
      requires resv.Valid()
      ensures this.resv == resv && freemem.Length == slots && fresh(freemem)
      ensures Valid() && found == [] && done == [] && complete && base == resv.slots[..resv.count]
    {
      this.resv := resv;
      freemem := new Region[slots](_ => REG_EMPTY);
      found, done, base, complete := [], [], resv.slots[..resv.count], true;
      new;
      assert freemem[..0] == [];
    }

    ghost predicate Filled()
      reads this, freemem
    {
      var n := |Take(found, freemem.Length)|;
      && freemem[..n] == Take(found, freemem.Length)
      && (forall k :: n <= k < freemem.Length ==> freemem[k] == REG_EMPTY)
    }

    ghost predicate Valid()
      reads this, freemem, resv, resv.slots
    {
      && freemem != resv.slots
      && resv.Valid()
      && NonEmpty(found)
      && Filled()
      && Recorded(resv.slots[..resv.count], base, found, done, complete)
      && resv.count <= |base| + |found| + |done|
      && (Roomy() ==> complete)
    }

    /** Both tables have a slot for every region they were given. */
    ghost predicate Roomy()
      reads this
    {
      |base| + |found| + |done| < resv.slots.Length && |found| <= freemem.Length
    }

    /** insert_region: the first empty slot takes the region; a full table refuses it. */
    method InsertRegion(reg: Region) returns (ok: bool)
      requires Valid() && reg.start <= reg.end
      modifies this, freemem, resv, resv.slots
      ensures Valid() && base == old(base) && done == old(done)
      ensures old(resv.InOrder()) && Apart(base, reg) && Apart(old(found), reg) && Apart(done, reg) ==> resv.InOrder()
      ensures found == if reg.start == reg.end then old(found) else old(found) + [reg]
      ensures ok <==> reg.start == reg.end || |old(found)| < freemem.Length
      ensures complete ==> ok && old(complete)
    {
      hide Recorded, Apart, NonEmpty, Merged, AddsCover, Disjoint;
      if reg.start == reg.end { return true; }
      AppendNonEmpty(found, reg);
      ghost var t := resv.slots[..resv.count];
      var i := 0;
      while i < freemem.Length
        invariant 0 <= i <= freemem.Length && i <= |found| && Valid()
        invariant found == old(found) && base == old(base) && done == old(done) && complete == old(complete)
        invariant t == resv.slots[..resv.count]
      {
        if freemem[i].start == freemem[i].end {
          EmptyIsPast(found, freemem[..], i);
          TableDisjoint(t, base, found, done, complete, reg);
          var kept := resv.ReserveRegion(reg);
          RecordFound(t, resv.slots[..resv.count], base, found, done, complete, complete && kept, reg);
          ghost var n := |found|;
          freemem[i] := reg;
          found, complete := found + [reg], complete && kept;
          assert freemem[..n + 1] == old(freemem[..n]) + [reg];
          return true;
        }
        SlotIsFound(found, freemem[..], i);
        i := i + 1;
      }
      RecordFound(t, t, base, found, done, complete, false, reg);
      found, complete := found + [reg], false;
      assert Take(found, freemem.Length) == Take(old(found), freemem.Length);
      return false;
    }

    /** Records a region that is not free. */
    method Reserve(reg: Region)
      requires Valid() && reg.start <= reg.end
      modifies `done, `complete, resv, resv.slots
      ensures Valid()
      ensures old(resv.InOrder()) && Apart(base, reg) && Apart(found, reg) && Apart(old(done), reg) ==> resv.InOrder()
      ensures done == old(done) + [reg]
      ensures complete ==> old(complete)
    {
      hide Recorded, Apart, NonEmpty, Merged, AddsCover, Disjoint;
      ghost var t := resv.slots[..resv.count];
      if reg.start < reg.end {
        TableDisjoint(t, base, found, done, complete, reg);
        var kept := resv.ReserveRegion(reg);
        RecordDone(t, resv.slots[..resv.count], base, found, done, complete, complete && kept, reg);
        complete := complete && kept;
      } else {
        EmptyAddsNothing(t, reg);
        RecordDone(t, t, base, found, done, complete, complete, reg);
      }
      done := done + [reg];
    }

    /** The walk of init_freemem over the available and the reserved regions. */
    method Subtract(avail: array<Region>, reserved: seq<Region>)
      requires Valid() && found == [] && done == [] && avail != freemem && avail != resv.slots
      requires Sorted(avail[..]) && Sorted(reserved)
      modifies this, freemem, resv, resv.slots, avail
      ensures Valid() && base == old(base)
      ensures Sorted(found) && Difference(found, old(avail[..]), reserved)
      ensures done == reserved
      ensures complete ==> |found| <= freemem.Length && old(complete)
      ensures old(resv.InOrder()) && Clear(base, old(avail[..]), reserved) ==> resv.InOrder()
    {
      hide Sorted, NonEmpty, Exact, BootScan.Shape, Apart, Filled, Recorded, Clear, Difference, Step, Covers, Merged;
      ghost var available := avail[..];
      ghost var s := Scan([], available, reserved);
      StartScan(available, reserved);
      var a, r := 0, 0;
      while a < avail.Length && r < |reserved|
        invariant 0 <= a <= avail.Length && 0 <= r <= |reserved|
        invariant s == Scan(found, avail[a..], reserved[r..])
        invariant Valid() && base == old(base) && done == reserved[..r]
        invariant BootScan.Shape(s) && Exact(s, available, reserved)
        invariant complete ==> |found| <= freemem.Length && old(complete)
        invariant old(resv.InOrder()) && Clear(base, available, reserved) ==> resv.InOrder()
        decreases avail.Length - a, |reserved| - r, if a < avail.Length then avail[a].end - avail[a].start else 0
      {
        a, r, s := Advance(avail, reserved, a, r, s, available);
      }
      r, s := RecordRest(avail, reserved, a, r, s, available);
      s := TakeRest(avail, reserved, a, s, available);
      FinishScan(s, available, reserved);
    }

    /** No more available regions: records the remaining reserved ones. */
    method RecordRest(avail: array<Region>, reserved: seq<Region>, a: nat, r0: nat, ghost s: Scan,
                      ghost available: seq<Region>)
      returns (r: nat, ghost t: Scan)
      requires avail != freemem && avail != resv.slots && a <= avail.Length && r0 <= |reserved|
      requires (a == avail.Length || r0 == |reserved|) && s == Scan(found, avail[a..], reserved[r0..])
      requires Sorted(reserved) && Valid() && done == reserved[..r0] && BootScan.Shape(s)
               && Exact(s, available, reserved)
      modifies `done, `complete, resv, resv.slots
      ensures r == |reserved| && t == Scan(found, avail[a..], []) && found == old(found)
      ensures Valid() && base == old(base) && done == reserved
      ensures BootScan.Shape(t) && Exact(t, available, reserved)
      ensures complete ==> old(complete)
      ensures old(resv.InOrder()) && Clear(base, available, reserved) ==> resv.InOrder()
    {
      hide Sorted, NonEmpty, Exact, BootScan.Shape, Apart, Filled, Recorded, Clear, Covers, Merged;
      r, t := r0, s;
      while r < |reserved|
        invariant 0 <= r <= |reserved| && (a == avail.Length || r == |reserved|)
        invariant t == Scan(found, avail[a..], reserved[r..]) && found == old(found)
        invariant Valid() && base == old(base) && done == reserved[..r]
        invariant BootScan.Shape(t) && Exact(t, available, reserved)
        invariant complete ==> old(complete)
        invariant old(resv.InOrder()) && Clear(base, available, reserved) ==> resv.InOrder()
      {
        SkipReserved(t, available, reserved);
        ReservedApart(t, available, reserved, r, base, done);
        Reserve(reserved[r]);
        t := t.(left := t.left[1..]);
        assert reserved[..r + 1] == reserved[..r] + [reserved[r]];
        r := r + 1;
      }
      assert reserved[..r] == reserved && reserved[r..] == [];
    }

    /** No more reserved regions: takes the rest of the available ones. */
    method TakeRest(avail: array<Region>, reserved: seq<Region>, a0: nat, ghost s: Scan, ghost available: seq<Region>)
      returns (ghost t: Scan)
      requires avail != freemem && avail != resv.slots && a0 <= avail.Length
      requires s == Scan(found, avail[a0..], [])
      requires Valid() && done == reserved && BootScan.Shape(s) && Exact(s, available, reserved)
      modifies this, freemem, resv, resv.slots
      ensures t == Scan(found, [], []) && Valid() && base == old(base) && done == reserved
      ensures BootScan.Shape(t) && Exact(t, available, reserved)
      ensures complete ==> old(complete) && (|old(found)| <= freemem.Length ==> |found| <= freemem.Length)
      ensures old(resv.InOrder()) && Clear(base, available, reserved) ==> resv.InOrder()
    {
      hide Sorted, NonEmpty, Exact, BootScan.Shape, Apart, Filled, Recorded, Clear, Covers, Merged;
      var a := a0;
      t := s;
      while a < avail.Length
        invariant 0 <= a <= avail.Length && t == Scan(found, avail[a..], [])
        invariant Valid() && base == old(base) && done == reserved
        invariant BootScan.Shape(t) && Exact(t, available, reserved)
        invariant complete ==> old(complete) && (|old(found)| <= freemem.Length ==> |found| <= freemem.Length)
        invariant old(resv.InOrder()) && Clear(base, available, reserved) ==> resv.InOrder()
      {
        assert avail[a..][1..] == avail[a + 1..];
        t := TakeOne(avail[a], reserved, t, available);
        a := a + 1;
      }
    }

    method TakeOne(m: Region, reserved: seq<Region>, ghost s: Scan, ghost available: seq<Region>)
      returns (ghost t: Scan)
      requires s.rest != [] && m == s.rest[0] && s.left == [] && s.free == found
      requires Valid() && done == reserved && BootScan.Shape(s) && Exact(s, available, reserved)
      modifies this, freemem, resv, resv.slots
      ensures t == Scan(found, s.rest[1..], []) && Valid() && base == old(base) && done == reserved
      ensures BootScan.Shape(t) && Exact(t, available, reserved)
      ensures complete ==> old(complete) && (|old(found)| <= freemem.Length ==> |found| <= freemem.Length)
      ensures old(resv.InOrder()) && Clear(base, available, reserved) ==> resv.InOrder()
    {
      hide Sorted, NonEmpty, Exact, BootScan.Shape, Apart, Filled, Recorded, Clear, Covers, Merged;
      TakeFirst(s, available, reserved);
      RestOk(s);
      FreeApart(s, m, available, reserved, base, done);
      var ok := InsertRegion(m);
      t := Scan(found, s.rest[1..], []);
    }

    /** One iteration of the walk, on the tables. */
    method Advance(avail: array<Region>, reserved: seq<Region>, a0: nat, r0: nat, ghost s: Scan,
                   ghost available: seq<Region>)
      returns (a: nat, r: nat, ghost t: Scan)
      requires avail != freemem && avail != resv.slots
      requires a0 < avail.Length && r0 < |reserved| && s == Scan(found, avail[a0..], reserved[r0..])
      requires Sorted(reserved) && Valid() && done == reserved[..r0] && BootScan.Shape(s)
               && Exact(s, available, reserved)
      modifies this, freemem, resv, resv.slots, avail
      ensures a <= avail.Length && r <= |reserved| && t == Step(s) == Scan(found, avail[a..], reserved[r..])
      ensures Valid() && base == old(base) && done == reserved[..r]
      ensures BootScan.Shape(t) && Exact(t, available, reserved)
      ensures complete ==> old(complete) && (|old(found)| <= freemem.Length ==> |found| <= freemem.Length)
      ensures (a == a0 + 1 && r == r0) || (a == a0 && r == r0 + 1)
           || (a == a0 && r == r0 && 0 <= avail[a].end - avail[a].start < old(avail[a0].end - avail[a0].start))
      ensures old(resv.InOrder()) && Clear(base, available, reserved) ==> resv.InOrder()
    {
      hide Sorted, NonEmpty, Exact, BootScan.Shape, Apart, Filled, Recorded, Clear, Difference, Covers, Merged;
      a, r, t := a0, r0, Step(s);
      StepKeepsExact(s, available, reserved);
      StepKeepsShape(s);
      assert reserved[..r0 + 1] == reserved[..r0] + [reserved[r0]];
      RestOk(s);
      var res, av := reserved[r], avail[a];
      if res.start == res.end || (av.start < av.end && res.end <= av.start) {
        ReservedApart(s, available, reserved, r, base, done);
        Reserve(res);
        r := r + 1;
      } else if av.start >= av.end {
        a := a + 1;
      } else if res.start >= av.end {
        FreeApart(s, av, available, reserved, base, done);
        var ok := InsertRegion(av);
        a := a + 1;
      } else if res.start <= av.start {
        avail[a] := Region(MinOf(av.end, res.end), av.end);
        assert avail[a..] == s.rest[0 := avail[a]];
      } else {
        var m := Region(av.start, res.start);
        FreeApart(s, m, available, reserved, base, done);
        var ok := InsertRegion(m);
        if av.end > res.end {
          avail[a] := Region(res.end, av.end);
          assert avail[a..] == s.rest[0 := avail[a]];
        } else {
          a := a + 1;
        }
      }
    }

    /**
     * Takes the highest block of the given size and alignment out of the free regions. The slot
     * after the region it comes from is always kept empty, to take what is left above the block.
     */
    method PlaceRootServer(size: Word, bits: nat) returns (ok: bool, start: nat)
      requires Filled() && |found| < freemem.Length && NonEmpty(found) && Sorted(found)
      requires forall i :: 0 <= i < |found| ==> found[i].end < WORD
      modifies freemem
      ensures ok <==> exists i :: 0 <= i < |found| && Fits(found[i], size, bits)
      ensures ok ==> start % Pow2(bits) == 0 && Carved(freemem[..], found, start, size)
      ensures ok ==> Sorted(freemem[..|found| + 1])
      ensures ok ==> forall k :: |found| < k < freemem.Length ==> freemem[k] == REG_EMPTY
      ensures !ok ==> SameCover(freemem[..], found)
    {
      hide Sorted, NonEmpty, Fits, Carved, SameCover, Pow2, Shuffled, RoundDown;
      ghost var k := |found|;
      assert freemem[..][..k] == freemem[..k];
      ShuffledStart(freemem[..], found);
      var i := LastNonEmpty();
      while i >= 0
        invariant -1 <= i < k < freemem.Length && Shuffled(freemem[..], found, i + 1)
        invariant forall j :: i < j < k ==> !Fits(found[j], size, bits)
      {
        ghost var slots := freemem[..];
        ShuffledSlots(slots, found, i + 1);
        var end := freemem[i].end;
        var unaligned := (end - size) % WORD;
        start := RoundDown(unaligned, bits);
        FitsHere(found[i], size, bits);
        if unaligned <= end && start >= freemem[i].start {
          RoundDownAligned(unaligned, bits);
          TakeBlock(i, start, size);
          return true, start;
        }
        freemem[i + 1] := freemem[i];
        freemem[i] := REG_EMPTY;
        ShuffleUp(slots, found, i);
        i := i - 1;
      }
      ShuffledCovers(freemem[..], found);
      return false, 0;
    }

    /** Leaves what lies below the block in slot i and what lies above it in the empty slot after that. */
    method TakeBlock(i: nat, start: nat, size: nat)
      requires i < |found| < freemem.Length && Sorted(found) && Shuffled(freemem[..], found, i + 1)
      requires found[i].start <= start && start + size <= found[i].end
      modifies freemem
      ensures Carved(freemem[..], found, start, size) && Sorted(freemem[..|found| + 1])
      ensures forall k :: |found| < k < freemem.Length ==> freemem[k] == REG_EMPTY
    {
      hide Sorted, Carved, Shuffled;
      ghost var slots := freemem[..];
      ShuffledSlots(slots, found, i + 1);
      freemem[i + 1] := Region(start + size, freemem[i].end);
      freemem[i] := Region(freemem[i].start, start);
      CarveHere(slots, found, i, start, size);
      CarvedAt(found, i, start, size, freemem.Length - |found| - 1);
      assert freemem[..|found| + 1] == freemem[..][..|found| + 1] == Carve(found, i, start, size);
    }

    /** Skips the empty slots at the end of the table. */
    method LastNonEmpty() returns (i: int)
      requires Filled() && |found| < freemem.Length && NonEmpty(found)
      ensures i == |found| - 1
    {
      assert forall k :: 0 <= k < |found| ==> freemem[k] == freemem[..|found|][k];
      i := freemem.Length - 1;
      while i >= 0 && freemem[i].start == freemem[i].end
        invariant |found| - 1 <= i < freemem.Length
      {
        i := i - 1;
      }
    }

    /**
     * init_freemem. On success the free regions are the available memory inside the kernel window,
     * less the reserved regions, less one aligned block for the root server, however many slots the
     * tables have; and the reserved table covers all of it if no entry was refused.
     */
    method InitFreemem(available: seq<Region>, reserved: seq<Region>, offset: nat, top: nat, size: Word, bits: nat)
      returns (ok: bool, start: nat)
      requires resv.Valid() && freemem != resv.slots && |available| <= freemem.Length && top < WORD
      modifies this, freemem, resv, resv.slots
      ensures ok ==> ValidInput(available, reserved)
      ensures ok ==> Difference(found, Clipped(available, offset, top), reserved)
      ensures ok ==> start % Pow2(bits) == 0 && Carved(freemem[..], found, start, size)
      ensures ok ==> |found| < freemem.Length && Sorted(freemem[..|found| + 1])
      ensures ok ==> forall k :: |found| < k < freemem.Length ==> freemem[k] == REG_EMPTY
      ensures ok ==> resv.Valid()
                     && Recorded(resv.slots[..resv.count], old(resv.slots[..resv.count]), found, reserved, complete)
      ensures ok && old(resv.InOrder())
              && Clear(old(resv.slots[..resv.count]), Clipped(available, offset, top), reserved) ==>
                resv.InOrder()
      ensures ok && old(resv.count) + |found| + |reserved| < resv.slots.Length ==> complete
      ensures ok <==> ValidInput(available, reserved) && |found| < freemem.Length
                      && exists i :: 0 <= i < |found| && Fits(found[i], size, bits)
    {
      hide Clear, Sorted, NonEmpty, Difference, Recorded, Carved, Fits, Pow2, Clipped, Merged;
      ok := CheckAvailable(available);
      if !ok { return false, 0; }
      ok := CheckReserved(reserved);
      if !ok { return false, 0; }
      Reset();
      var avail := new Region[|available|];
      Clip(avail, available, offset, top);
      ClippedSorted(available, offset, top);
      Subtract(avail, reserved);
      var last := freemem[freemem.Length - 1];
      LastSlot(found, freemem[..]);
      if last.start != last.end { return false, 0; }
      FoundBelow(found, available, reserved, offset, top);
      ok, start := PlaceRootServer(size, bits);
    }

    method Reset()
      requires resv.Valid() && freemem != resv.slots
      modifies this, freemem
      ensures Valid() && found == [] && done == [] && complete && base == resv.slots[..resv.count]
    {
      for i := 0 to freemem.Length
        invariant forall k :: 0 <= k < i ==> freemem[k] == REG_EMPTY
        invariant resv.slots[..resv.count] == old(resv.slots[..resv.count]) && resv.Valid()
      {
        freemem[i] := REG_EMPTY;
      }
      found, done, base, complete := [], [], resv.slots[..resv.count], true;
      assert freemem[..0] == [];
    }
  }

  /** Moves the available regions into the kernel's address space. */
  method Clip(avail: array<Region>, available: seq<Region>, offset: nat, top: nat)
    requires avail.Length == |available|
    modifies avail
    ensures avail[..] == Clipped(available, offset, top)
  {
    for i := 0 to |available|
      invariant forall k :: 0 <= k < i ==> avail[k] == Clipped(available, offset, top)[k]
    {
      avail[i] := Region(available[i].start + offset, available[i].end + offset);
      avail[i] := Region(avail[i].start, Ceiling(avail[i].end, top));
      avail[i] := Region(Ceiling(avail[i].start, top), avail[i].end);
    }
  }

  /** The last slot is empty exactly if every region found has a slot and one is left. */
  lemma LastSlot(found: seq<Region>, slots: seq<Region>)
    requires slots != [] && NonEmpty(found) && slots[..|Take(found, |slots|)|] == Take(found, |slots|)
    requires forall k :: |Take(found, |slots|)| <= k < |slots| ==> slots[k] == REG_EMPTY
    ensures slots[|slots| - 1].start == slots[|slots| - 1].end <==> |found| < |slots|
  {
    var n := |Take(found, |slots|)|;
    assert forall k :: 0 <= k < n ==> slots[k] == slots[..n][k];
  }

  lemma FoundBelow(found: seq<Region>, available: seq<Region>, reserved: seq<Region>, offset: nat, top: nat)
    requires NonEmpty(found) && Difference(found, Clipped(available, offset, top), reserved)
    ensures forall i :: 0 <= i < |found| ==> found[i].end <= top
  {
    forall i | 0 <= i < |found|
      ensures found[i].end <= top
    {
      IndexCovers(found, found[i].end - 1, i);
      ClippedCovers(available, offset, top, found[i].end - 1);
    }
  }

  ghost predicate ValidInput(available: seq<Region>, reserved: seq<Region>) {
    available != [] && NonEmpty(available) && Sorted(available) && Sorted(reserved)
  }

  function Ceiling(p: nat, top: nat): nat {
    if p > top then top else p
  }

  /** The available regions in the kernel's address space, cut off at the end of the kernel window. */
  function Clipped(available: seq<Region>, offset: nat, top: nat): seq<Region> {
    seq(|available|, i requires 0 <= i < |available| =>
      Region(Ceiling(available[i].start + offset, top), Ceiling(available[i].end + offset, top)))
  }

  lemma ClippedSorted(available: seq<Region>, offset: nat, top: nat)
    requires Sorted(available)
    ensures Sorted(Clipped(available, offset, top))
  {
    var c := Clipped(available, offset, top);
    forall i, j | 0 <= i < j < |c|
      ensures c[i].end <= c[j].start
    {
      assert available[i].end <= available[j].start;
    }
  }

  /** Clipping keeps exactly the available addresses below the end of the kernel window. */
  lemma {:induction false} ClippedCovers(available: seq<Region>, offset: nat, top: nat, x: int)
    ensures Covers(Clipped(available, offset, top), x) <==> x < top && Covers(available, x - offset)
  {
    if available != [] {
      assert Clipped(available, offset, top)[1..] == Clipped(available[1..], offset, top);
      ClippedCovers(available[1..], offset, top, x);
    }
  }

  /** check_available_memory */
  method CheckAvailable(available: seq<Region>) returns (ok: bool)
    ensures ok <==> available != [] && NonEmpty(available) && Sorted(available)
  {
    if available == [] { return false; }
    for i := 0 to |available|
      invariant Sorted(available[..i]) && NonEmpty(available[..i])
    {
      var r := available[i];
      if r.start > r.end { return false; }
      if r.start == r.end { return false; }
      if i > 0 && r.start < available[i - 1].end { return false; }
      SortedAppend(available, i);
    }
    assert available[..|available|] == available;
    return true;
  }

  lemma SortedAppend(s: seq<Region>, i: nat)
    requires i < |s| && Sorted(s[..i]) && s[i].start <= s[i].end
    requires i > 0 ==> s[i - 1].end <= s[i].start
    ensures Sorted(s[..i + 1])
  {
    forall j, k | 0 <= j < k < i + 1
      ensures s[j].end <= s[k].start
    {
      assert s[..i][j] == s[j];
      if k < i { assert s[..i][k] == s[k]; }
      else if j < i - 1 { assert s[..i][j].end <= s[..i][i - 1].start <= s[..i][i - 1].end; }
    }
  }

  /** check_reserved_memory */
  method CheckReserved(reserved: seq<Region>) returns (ok: bool)
    ensures ok <==> Sorted(reserved)
  {
    for i := 0 to |reserved|
      invariant Sorted(reserved[..i])
    {
      var r := reserved[i];
      if r.start > r.end { return false; }
      if i > 0 && r.start < reserved[i - 1].end { return false; }
      SortedAppend(reserved, i);
    }
    assert reserved[..|reserved|] == reserved;
    return true;
  }

  // ------------------------------------------------------------------ the root server's block

  /** The topmost aligned block of that size lies within r. */
  predicate Fits(r: Region, size: nat, bits: nat) {
    size <= r.end && r.start <= RoundDown(r.end - size, bits)
  }

  /** Comparing the wrapped difference with the end detects a region that ends below size. */
  lemma FitsHere(r: Region, size: Word, bits: nat)
    requires r.end < WORD
    ensures var u := (r.end - size) % WORD;
            && (u <= r.end && RoundDown(u, bits) >= r.start <==> Fits(r, size, bits))
            && (Fits(r, size, bits) ==> u == r.end - size)
  {
    var u := (r.end - size) % WORD;
    if size <= r.end {
      assert u == r.end - size;
    } else {
      assert u == WORD + r.end - size;
    }
  }

  /** slots holds the regions found, with an empty slot at index i and after the last. */
  predicate Shuffled(slots: seq<Region>, found: seq<Region>, i: nat) {
    && i <= |found| < |slots|
    && slots == found[..i] + [REG_EMPTY] + found[i..] + Empties(|slots| - |found| - 1)
  }

  lemma ShuffledStart(slots: seq<Region>, found: seq<Region>)
    requires |found| < |slots| && slots[..|found|] == found
    requires forall k :: |found| <= k < |slots| ==> slots[k] == REG_EMPTY
    ensures Shuffled(slots, found, |found|)
  {
    assert slots == slots[..|found|] + slots[|found|..];
    assert slots[|found|..] == [REG_EMPTY] + Empties(|slots| - |found| - 1);
  }

  lemma ShuffledSlots(slots: seq<Region>, found: seq<Region>, i: nat)
    requires Shuffled(slots, found, i)
    ensures i > 0 ==> slots[i - 1] == found[i - 1]
    ensures |found| < |slots|
  {
  }

  lemma ShuffleUp(slots: seq<Region>, found: seq<Region>, i: nat)
    requires Shuffled(slots, found, i + 1)
    ensures Shuffled(slots[i + 1 := slots[i]][i := REG_EMPTY], found, i)
  {
    assert found[..i + 1] == found[..i] + [found[i]];
    assert found[i..] == [found[i]] + found[i + 1..];
  }

  lemma CarveHere(slots: seq<Region>, found: seq<Region>, i: nat, start: nat, size: nat)
    requires Shuffled(slots, found, i + 1)
    ensures slots[i + 1 := Region(start + size, found[i].end)][i := Region(found[i].start, start)]
         == Carve(found, i, start, size) + Empties(|slots| - |found| - 1)
  {
    assert found[..i + 1] == found[..i] + [found[i]];
  }

  function Empties(n: nat): seq<Region> {
    seq(n, _ => REG_EMPTY)
  }

  lemma {:induction false} EmptiesCoverNothing(n: nat, x: int)
    ensures !Covers(Empties(n), x)
  {
    if n > 0 {
      assert Empties(n)[1..] == Empties(n - 1);
      EmptiesCoverNothing(n - 1, x);
    }
  }

  lemma ShuffledCovers(slots: seq<Region>, found: seq<Region>)
    requires Shuffled(slots, found, 0)
    ensures SameCover(slots, found)
  {
    var n := |slots| - |found| - 1;
    assert slots == Empties(1) + found + Empties(n);
    forall x: int
      ensures Covers(slots, x) <==> Covers(found, x)
    {
      CoversConcat(Empties(1) + found, Empties(n), x);
      CoversConcat(Empties(1), found, x);
      EmptiesCoverNothing(1, x);
      EmptiesCoverNothing(n, x);
    }
  }

  function Carve(found: seq<Region>, i: nat, start: nat, size: nat): seq<Region>
    requires i < |found|
  {
    found[..i] + [Region(found[i].start, start), Region(start + size, found[i].end)] + found[i + 1..]
  }

  /** s covers what found covers except the block, and the block is part of found. */
  ghost predicate Carved(s: seq<Region>, found: seq<Region>, start: nat, size: nat) {
    forall x: int ::
      && (Covers(s, x) <==> Covers(found, x) && !(start <= x < start + size))
      && (start <= x < start + size ==> Covers(found, x))
  }

  lemma CarvedAt(found: seq<Region>, i: nat, start: nat, size: nat, empty: nat)
    requires i < |found| && Sorted(found) && found[i].start <= start && start + size <= found[i].end
    ensures Carved(Carve(found, i, start, size) + Empties(empty), found, start, size)
    ensures Sorted(Carve(found, i, start, size))
  {
    SplitSorted(found, i, start, start + size);
    forall x: int
      ensures Covers(Carve(found, i, start, size) + Empties(empty), x)
         <==> Covers(found, x) && !(start <= x < start + size)
      ensures start <= x < start + size ==> Covers(found, x)
    {
      CarvedCover(found, i, start, size, empty, x);
    }
  }

  lemma CarvedCover(found: seq<Region>, i: nat, start: nat, size: nat, empty: nat, x: int)
    requires i < |found| && Sorted(found) && found[i].start <= start && start + size <= found[i].end
    ensures Covers(Carve(found, i, start, size) + Empties(empty), x)
       <==> Covers(found, x) && !(start <= x < start + size)
    ensures start <= x < start + size ==> Covers(found, x)
  {
    hide Covers, Empties;
    var a, b, c := found[..i], found[i + 1..], found[i];
    var p, q := Region(c.start, start), Region(start + size, c.end);
    CoversConcat(Carve(found, i, start, size), Empties(empty), x);
    EmptiesCoverNothing(empty, x);
    assert Carve(found, i, start, size) == a + [p] + [q] + b;
    CoversConcat(a + [p] + [q], b, x);
    CoversConcat(a + [p], [q], x);
    CoversConcat(a, [p], x);
    CoversOne(p, x);
    CoversOne(q, x);
    assert found == a + [c] + b;
    CoversConcat(a + [c], b, x);
    CoversConcat(a, [c], x);
    CoversOne(c, x);
    if start <= x < start + size {
      EndsBefore(a, x);
      StartsAfter(b, x);
    }
  }

  lemma {:induction false} StartsAfter(s: seq<Region>, x: int)
    requires forall i :: 0 <= i < |s| ==> x < s[i].start
    ensures !Covers(s, x)
  {
    if s != [] { StartsAfter(s[1..], x); }
  }

  /** Nothing available or reserved is in the table already. */
  ghost predicate Clear(base: seq<Region>, available: seq<Region>, reserved: seq<Region>) {
    forall x: int :: Covers(base, x) ==> !Covers(available, x) && !Covers(reserved, x)
  }

  ghost predicate Difference(s: seq<Region>, available: seq<Region>, reserved: seq<Region>) {
    forall x: int :: Covers(s, x) <==> Covers(available, x) && !Covers(reserved, x)
  }

  lemma StartScan(available: seq<Region>, reserved: seq<Region>)
    requires Sorted(available) && Sorted(reserved)
    ensures BootScan.Shape(Scan([], available, reserved)) && Exact(Scan([], available, reserved), available, reserved)
  {
    assert [] + available == available;
  }

  lemma FinishScan(s: Scan, available: seq<Region>, reserved: seq<Region>)
    requires s.rest == [] && BootScan.Shape(s) && Exact(s, available, reserved)
    ensures Sorted(s.free) && Difference(s.free, available, reserved)
  {
    assert s.free + s.rest == s.free;
  }

  lemma RestOk(s: Scan)
    requires BootScan.Shape(s) && s.rest != []
    ensures s.rest[0].start <= s.rest[0].end
    ensures s.left != [] ==> s.left[0].start <= s.left[0].end
  {
    TailSorted(s);
  }

  lemma SkipReserved(s: Scan, available: seq<Region>, reserved: seq<Region>)
    requires s.rest == [] && s.left != [] && BootScan.Shape(s) && Exact(s, available, reserved)
    ensures BootScan.Shape(s.(left := s.left[1..])) && Exact(s.(left := s.left[1..]), available, reserved)
  {
    DropSorted(s.left, 0);
    assert s.left[..0] + s.left[0 + 1..] == s.left[1..];
  }

  lemma TakeFirst(s: Scan, available: seq<Region>, reserved: seq<Region>)
    requires s.rest != [] && s.left == [] && BootScan.Shape(s) && Exact(s, available, reserved)
    ensures var f := if s.rest[0].start == s.rest[0].end then s.free else s.free + [s.rest[0]];
            BootScan.Shape(Scan(f, s.rest[1..], [])) && Exact(Scan(f, s.rest[1..], []), available, reserved)
  {
    var p := s.rest[0];
    var f := if p.start == p.end then s.free else s.free + [p];
    RestOk(s);
    if p.start == p.end {
      DropSorted(s.free + s.rest, |s.free|);
      assert (s.free + s.rest)[..|s.free|] + (s.free + s.rest)[|s.free| + 1..] == f + s.rest[1..];
    } else {
      AppendNonEmpty(s.free, p);
      assert f + s.rest[1..] == s.free + s.rest;
    }
    forall x: int
      ensures Covers(f, x) || Covers(s.rest[1..], x) <==> Covers(s.free, x) || Covers(s.rest, x)
    {
      if f != s.free {
        CoversConcat(s.free, [p], x);
        CoversOne(p, x);
      }
    }
  }

  /** The next reserved region is clear of everything recorded so far. */
  lemma ReservedApart(s: Scan, available: seq<Region>, reserved: seq<Region>, r: nat, base: seq<Region>,
                      done: seq<Region>)
    requires r < |reserved| && done == reserved[..r] && Sorted(reserved)
    requires Exact(s, available, reserved)
    ensures Clear(base, available, reserved) ==> Apart(base, reserved[r])
    ensures Apart(s.free, reserved[r]) && Apart(done, reserved[r]) && reserved[r].start <= reserved[r].end
  {
    forall x: int | In(reserved[r], x)
      ensures Clear(base, available, reserved) ==> !Covers(base, x)
      ensures !Covers(s.free, x) && !Covers(done, x)
    {
      IndexCovers(reserved, x, r);
      assert forall i :: 0 <= i < |done| ==> done[i] == reserved[i];
      EndsBefore(done, x);
    }
  }

  /** A part of the next available region that is not reserved is clear of everything recorded so far. */
  lemma FreeApart(s: Scan, m: Region, available: seq<Region>, reserved: seq<Region>, base: seq<Region>,
                  done: seq<Region>)
    requires s.rest != [] && BootScan.Shape(s) && Exact(s, available, reserved)
    requires s.rest[0].start <= m.start <= m.end <= s.rest[0].end
    requires s.left != [] ==> m.end <= s.left[0].start
    requires done <= reserved
    ensures Clear(base, available, reserved) ==> Apart(base, m)
    ensures Apart(s.free, m) && Apart(done, m)
  {
    forall x: int | In(m, x)
      ensures Clear(base, available, reserved) ==> !Covers(base, x)
      ensures !Covers(s.free, x) && !Covers(done, x)
    {
      assert Covers(s.rest, x);
      if s.left != [] { HeadBounds(s.left, x); }
      assert !Covers(s.left, x);
      assert Covers(available, x) && !Covers(reserved, x);
      assert reserved == done + reserved[|done|..];
      CoversConcat(done, reserved[|done|..], x);
      FreeBelowRest(s, x);
    }
  }

  lemma FreeBelowRest(s: Scan, x: int)
    requires s.rest != [] && Sorted(s.free + s.rest) && s.rest[0].start <= x
    ensures !Covers(s.free, x)
  {
    var w := s.free + s.rest;
    assert w[|s.free|] == s.rest[0];
    assert forall i :: 0 <= i < |s.free| ==> w[i] == s.free[i];
    EndsBefore(s.free, x);
  }

  lemma {:induction false} EndsBefore(s: seq<Region>, x: int)
    requires forall i :: 0 <= i < |s| ==> s[i].end <= x
    ensures !Covers(s, x)
  {
    if s != [] { EndsBefore(s[1..], x); }
  }

  /** The first empty slot is the one after the regions found so far. */
  lemma EmptyIsPast(found: seq<Region>, slots: seq<Region>, i: nat)
    requires NonEmpty(found) && i < |slots| && i <= |found| && slots[..|Take(found, |slots|)|] == Take(found, |slots|)
    requires slots[i].start == slots[i].end
    ensures i == |found|
  {
    var n := |Take(found, |slots|)|;
    assert forall k :: 0 <= k < n ==> slots[k] == slots[..n][k];
  }

  lemma SlotIsFound(found: seq<Region>, slots: seq<Region>, i: nat)
    requires i < |slots| && i <= |found|
    requires forall k :: |Take(found, |slots|)| <= k < |slots| ==> slots[k] == REG_EMPTY
    requires slots[i].start != slots[i].end
    ensures i < |found|
  {
  }
}
