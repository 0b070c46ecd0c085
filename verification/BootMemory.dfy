/**
 * The boot-time memory allocator: the table of reserved regions, the table of free regions, and
 * carving the root server's block out of free memory.
 */
module BootMemory {

  /** The addresses from start up to and excluding end. */
  datatype Region = Region(start: nat, end: nat)

  const REG_EMPTY := Region(0, 0)

  predicate In(r: Region, x: int) {
    r.start <= x < r.end
  }

  predicate Covers(s: seq<Region>, x: int) {
    s != [] && (In(s[0], x) || Covers(s[1..], x))
  }

  /** In order and disjoint; adjacent regions are allowed. */
  predicate Sorted(s: seq<Region>) {
    && (forall i :: 0 <= i < |s| ==> s[i].start <= s[i].end)
    && (forall i, j :: 0 <= i < j < |s| ==> s[i].end <= s[j].start)
  }

  predicate NonEmpty(s: seq<Region>) {
    forall i :: 0 <= i < |s| ==> s[i].start < s[i].end
  }

  /** Sorted, without empty regions, and merged wherever two regions touch. */
  predicate Merged(s: seq<Region>) {
    && NonEmpty(s)
    && (forall i, j :: 0 <= i < j < |s| ==> s[i].end < s[j].start)
  }

  lemma {:induction false} CoversConcat(a: seq<Region>, b: seq<Region>, x: int)
    ensures Covers(a + b, x) <==> Covers(a, x) || Covers(b, x)
  {
    if a == [] {
      assert a + b == b;
    } else {
      assert (a + b)[1..] == a[1..] + b;
      CoversConcat(a[1..], b, x);
    }
  }

  lemma CoversOne(r: Region, x: int)
    ensures Covers([r], x) <==> In(r, x)
  {
  }

  lemma {:induction false} CoversIndex(s: seq<Region>, x: int) returns (i: nat)
    requires Covers(s, x)
    ensures i < |s| && In(s[i], x)
  {
    if In(s[0], x) {
      i := 0;
    } else {
      var j := CoversIndex(s[1..], x);
      i := j + 1;
    }
  }

  lemma {:induction false} IndexCovers(s: seq<Region>, x: int, i: nat)
    requires i < |s| && In(s[i], x)
    ensures Covers(s, x)
  {
    if i > 0 { IndexCovers(s[1..], x, i - 1); }
  }

  /** s with the regions i - 1 and i, which touch, made one. */
  function Join(s: seq<Region>, i: nat): seq<Region>
    requires 0 < i < |s|
  {
    s[..i - 1] + [Region(s[i - 1].start, s[i].end)] + s[i + 1..]
  }

  lemma JoinCovers(s: seq<Region>, i: nat, x: int)
    requires 0 < i < |s| && NonEmpty(s) && s[i - 1].end == s[i].start
    ensures Covers(Join(s, i), x) <==> Covers(s, x)
  {
    var a, b := s[..i - 1], s[i + 1..];
    assert s == a + [s[i - 1]] + [s[i]] + b;
    CoversConcat(a + [s[i - 1]] + [s[i]], b, x);
    CoversConcat(a + [s[i - 1]], [s[i]], x);
    CoversConcat(a, [s[i - 1]], x);
    CoversOne(s[i - 1], x);
    CoversOne(s[i], x);
    var p := Region(s[i - 1].start, s[i].end);
    CoversConcat(a + [p], b, x);
    CoversConcat(a, [p], x);
    CoversOne(p, x);
  }

  lemma SetCovers(s: seq<Region>, i: nat, r: Region, x: int)
    requires i < |s| && (In(s[i], x) ==> In(r, x))
    ensures Covers(s[i := r], x) <==> Covers(s, x) || In(r, x)
  {
    var a, b := s[..i], s[i + 1..];
    assert s == a + [s[i]] + b && s[i := r] == a + [r] + b;
    CoversConcat(a + [s[i]], b, x);
    CoversConcat(a, [s[i]], x);
    CoversOne(s[i], x);
    CoversConcat(a + [r], b, x);
    CoversConcat(a, [r], x);
    CoversOne(r, x);
  }

  lemma InsertCovers(s: seq<Region>, i: nat, r: Region, x: int)
    requires i <= |s|
    ensures Covers(s[..i] + [r] + s[i..], x) <==> Covers(s, x) || In(r, x)
  {
    assert s == s[..i] + s[i..];
    CoversConcat(s[..i], s[i..], x);
    CoversConcat(s[..i] + [r], s[i..], x);
    CoversConcat(s[..i], [r], x);
    CoversOne(r, x);
  }

  predicate Disjoint(s: seq<Region>, r: Region) {
    forall i :: 0 <= i < |s| ==> s[i].end <= r.start || r.end <= s[i].start
  }

  // ------------------------------------------------------------------ the reserved table

  class ReservedTable {
    const slots: array<Region>
    var count: nat

    constructor (capacity: nat)
      requires capacity > 0
      ensures slots.Length == capacity && count == 0 && Valid() && InOrder()
    {
      slots := new Region[capacity](_ => REG_EMPTY);
      count := 0;
    }

    ghost predicate Valid()
      reads this, slots
    {
      count < slots.Length && NonEmpty(slots[..count])
    }

    ghost predicate InOrder()
      requires Valid()
      reads this, slots
    {
      Merged(slots[..count])
    }

    /** Moves everything after slot i down by one. */
    method RemoveAt(i: nat)
      requires i < count <= slots.Length
      modifies this, slots
      ensures count == old(count) - 1 <= slots.Length
      ensures slots[..count] == old(slots[..i]) + old(slots[i + 1..count])
    {
      ghost var was := slots[..count];
      var j := i + 1;
      while j < count
        invariant i + 1 <= j <= count == |was| <= slots.Length && count == old(count)
        invariant slots[..j - 1] == was[..i] + was[i + 1..j] && slots[j..count] == was[j..]
      {
        slots[j - 1] := slots[j];
        assert slots[..j] == slots[..j - 1] + [was[j]];
        j := j + 1;
      }
      count := count - 1;
    }

    /** Moves everything from slot i on up by one and stores r in slot i. */
    method InsertAt(i: nat, r: Region)
      requires i <= count < slots.Length
      modifies this, slots
      ensures count == old(count) + 1
      ensures slots[..count] == old(slots[..i]) + [r] + old(slots[i..count])
    {
      ghost var was := slots[..count];
      var j := count;
      while j > i
        invariant i <= j <= count == |was| < slots.Length && count == old(count)
        invariant forall k :: 0 <= k < j ==> slots[k] == was[k]
        invariant forall k :: j < k <= count ==> slots[k] == was[k - 1]
      {
        slots[j] := slots[j - 1];
        j := j - 1;
      }
      slots[i] := r;
      count := count + 1;
      assert slots[..count] == was[..i] + [r] + was[i..];
    }

    /** merge_regions: makes touching neighbours one. In a sorted table no two regions touch afterwards. */
    method MergeRegions()
      requires Valid()
      modifies this, slots
      ensures Valid() && count <= old(count)
      ensures SameCover(slots[..count], old(slots[..count])) && Extent(slots[..count]) == Extent(old(slots[..count]))
      ensures Sorted(old(slots[..count])) ==> InOrder()
    {
      hide Sorted, NonEmpty, SameCover, MergedUpTo, Merged, Extent;
      StartMerging(slots[..count]);
      var i := 1;
      while i < count
        invariant 1 <= i && count <= old(count) < slots.Length && Valid()
        invariant SameCover(slots[..count], old(slots[..count]))
                  && Extent(slots[..count]) == Extent(old(slots[..count]))
        invariant Sorted(old(slots[..count])) ==> Sorted(slots[..count]) && MergedUpTo(slots[..count], i)
        decreases count - i
      {
        ghost var s := slots[..count];
        if slots[i - 1].end == slots[i].start {
          slots[i - 1] := Region(slots[i - 1].start, slots[i].end);
          RemoveAt(i);
          assert slots[..count] == Join(s, i);
          JoinStep(s, i, old(slots[..count]));
          if Sorted(s) && MergedUpTo(s, i) { JoinKeepsOrder(s, i); }
        } else {
          if Sorted(s) && MergedUpTo(s, i) { ApartStep(s, i); }
          i := i + 1;
        }
      }
      if Sorted(slots[..count]) && MergedUpTo(slots[..count], i) { StepwiseMerged(slots[..count], i); }
    }

    /**
     * reserve_region: adds a region to the table. In a table in order it fails exactly when the region touches
     * no entry and there is no room for another, and the table stays in order exactly if the region is disjoint
     * from its entries. What the table covers grows by the region in any case.
     */
    method ReserveRegion(reg: Region) returns (ok: bool)
      requires Valid() && reg.start <= reg.end
      modifies this, slots
      ensures Valid() && count <= old(count) + 1
      ensures ok ==> AddsCover(old(slots[..count]), slots[..count], reg)
      ensures !ok ==> slots[..count] == old(slots[..count])
      ensures old(count) + 1 < slots.Length ==> ok
      ensures Merged(old(slots[..count])) ==>
                (ok <==> reg.start == reg.end || Touches(old(slots[..count]), reg) || old(count) + 1 < slots.Length)
      ensures ok && Merged(old(slots[..count])) && reg.start < reg.end ==>
                (InOrder() <==> Disjoint(old(slots[..count]), reg))
      ensures Merged(old(slots[..count])) && Disjoint(old(slots[..count]), reg) ==> InOrder()
    {
      hide Merged, Disjoint, AddsCover, Touches, Below, Sorted, NonEmpty, SameCover, Extent;
      ghost var s := slots[..count];
      if reg.start == reg.end {
        EmptyAddsNothing(s, reg);
        return true;
      }
      NothingBelow(s, reg);
      var i := 0;
      while i < count
        invariant 0 <= i <= count == |s| < slots.Length && slots[..count] == s && NoneTouches(s, i, reg)
        invariant Merged(s) && Disjoint(s, reg) ==> Below(s, i, reg)
      {
        if slots[i].start == reg.end || slots[i].end == reg.start {
          Extend(i, reg);
          return true;
        }
        if slots[i].start > reg.end {
          if Merged(s) { NotTouching(s, i, reg); }
          if count + 1 >= slots.Length { return false; }
          Insert(i, reg);
          return true;
        }
        if Merged(s) && Disjoint(s, reg) { BelowNext(s, i, reg); }
        i := i + 1;
      }
      NotTouching(s, i, reg);
      if i + 1 == slots.Length { return false; }
      Insert(i, reg);
      return true;
    }

    /** The region touches entry i, which is extended. */
    method Extend(i: nat, reg: Region)
      requires Valid() && i < count && reg.start < reg.end && NoneTouches(slots[..count], i, reg)
      requires slots[i].start == reg.end || slots[i].end == reg.start
      requires Merged(slots[..count]) && Disjoint(slots[..count], reg) ==> Below(slots[..count], i, reg)
      modifies this, slots
      ensures Valid() && count <= old(count) && Touches(old(slots[..count]), reg)
      ensures AddsCover(old(slots[..count]), slots[..count], reg)
      ensures Merged(old(slots[..count])) ==> (InOrder() <==> Disjoint(old(slots[..count]), reg))
    {
      hide Merged, Disjoint, AddsCover, Touches, Below, Sorted, NonEmpty, SameCover, Extent;
      ghost var s := slots[..count];
      if slots[i].start == reg.end {
        slots[i] := Region(reg.start, slots[i].end);
      } else {
        slots[i] := Region(slots[i].start, reg.end);
      }
      ghost var t := slots[..count];
      assert t == s[i := slots[i]];
      Extended(s, i, slots[i], reg);
      MergeRegions();
      AddsCoverTo(s, t, slots[..count], reg);
      OrderIsDisjoint(s, slots[..count], reg);
    }

    /** The region becomes an entry of its own. */
    method Insert(i: nat, reg: Region)
      requires Valid() && i <= count && count + 1 < slots.Length && reg.start < reg.end
      requires i < count ==> reg.end < slots[i].start
      requires Merged(slots[..count]) && Disjoint(slots[..count], reg) ==> Below(slots[..count], i, reg)
      modifies this, slots
      ensures Valid() && count == old(count) + 1
      ensures AddsCover(old(slots[..count]), slots[..count], reg)
      ensures Merged(old(slots[..count])) ==> (InOrder() <==> Disjoint(old(slots[..count]), reg))
    {
      hide Merged, Disjoint, AddsCover, Below, Sorted, NonEmpty, Extent;
      ghost var s := slots[..count];
      Inserted(s, i, reg);
      InsertAt(i, reg);
      assert slots[..count] == s[..i] + [reg] + s[i..];
      OrderIsDisjoint(s, slots[..count], reg);
    }
  }

  /** None of the first i regions touches r. */
  predicate NoneTouches(s: seq<Region>, i: nat, r: Region) {
    forall k :: 0 <= k < i && k < |s| ==> s[k].end != r.start && s[k].start != r.end
  }

  // ------------------------------------------------------------------ the extent of a table

  /** The sizes of the regions, added up. */
  function Extent(s: seq<Region>): int {
    if s == [] then 0 else Extent(s[..|s| - 1]) + (s[|s| - 1].end - s[|s| - 1].start)
  }

  lemma {:induction false} ExtentConcat(a: seq<Region>, b: seq<Region>)
    ensures Extent(a + b) == Extent(a) + Extent(b)
    decreases |b|
  {
    if b == [] {
      assert a + b == a;
    } else {
      assert (a + b)[..|a + b| - 1] == a + b[..|b| - 1];
      ExtentConcat(a, b[..|b| - 1]);
    }
  }

  lemma ExtentOne(r: Region)
    ensures Extent([r]) == r.end - r.start
  {
    assert [r][..0] == [];
  }

  /** How many addresses below n the regions cover. */
  function Count(s: seq<Region>, n: nat): nat {
    if n == 0 then 0 else Count(s, n - 1) + if Covers(s, n - 1) then 1 else 0
  }

  lemma {:induction false} CountOne(r: Region, n: nat)
    requires r.start <= r.end
    ensures Count([r], n) == if n <= r.start then 0 else if n <= r.end then n - r.start else r.end - r.start
  {
    if n > 0 {
      CountOne(r, n - 1);
      CoversOne(r, n - 1);
    }
  }

  /** Regions in order cover as many addresses as their sizes add up to. */
  lemma {:induction false} CountIsExtent(s: seq<Region>, n: nat)
    requires Merged(s) && (s != [] ==> s[|s| - 1].end <= n)
    ensures Count(s, n) == Extent(s)
    decreases |s|
  {
    if s == [] {
      CountNothing(n);
    } else {
      var f, l := s[..|s| - 1], s[|s| - 1];
      FrontMerged(s);
      hide Merged, Count, Extent;
      ExtentConcat(f, [l]);
      ExtentOne(l);
      CountIsExtent(f, n);
      CountOne(l, n);
      CountApart(f, l, n);
    }
  }

  lemma FrontMerged(s: seq<Region>)
    requires Merged(s) && s != []
    ensures var f, l := s[..|s| - 1], s[|s| - 1];
            && Merged(f) && l.start < l.end && s == f + [l] && (f != [] ==> f[|f| - 1].end < l.end)
            && forall i :: 0 <= i < |f| ==> f[i].end < l.start
  {
  }

  lemma {:induction false} CountNothing(n: nat)
    ensures Count([], n) == 0
  {
    if n > 0 { CountNothing(n - 1); }
  }

  lemma {:induction false} CountApart(f: seq<Region>, l: Region, n: nat)
    requires forall i :: 0 <= i < |f| ==> f[i].end < l.start
    ensures Count(f + [l], n) == Count(f, n) + Count([l], n)
  {
    if n > 0 {
      CountApart(f, l, n - 1);
      var x := n - 1;
      CoversConcat(f, [l], x);
      CoversOne(l, x);
      if Covers(f, x) { var i := CoversIndex(f, x); }
    }
  }

  /** An address that is covered twice counts once. */
  lemma {:induction false} CountShared(s: seq<Region>, t: seq<Region>, r: Region, n: nat, x: nat)
    requires AddsCover(s, t, r) && Covers(s, x) && In(r, x)
    ensures Count(t, n) + (if x < n then 1 else 0) <= Count(s, n) + Count([r], n)
  {
    if n > 0 {
      CountShared(s, t, r, n - 1, x);
      CoversOne(r, n - 1);
    }
  }

  /** If the sizes add up and the result is in order, nothing was covered twice. */
  lemma OrderIsDisjoint(s: seq<Region>, t: seq<Region>, r: Region)
    requires r.start < r.end && AddsCover(s, t, r) && Extent(t) == Extent(s) + (r.end - r.start)
    ensures Merged(s) && Merged(t) ==> Disjoint(s, r)
  {
    if Merged(s) && Merged(t) {
      var n := r.end + (if s == [] then 0 else s[|s| - 1].end) + (if t == [] then 0 else t[|t| - 1].end);
      CountIsExtent(s, n);
      CountIsExtent(t, n);
      CountOne(r, n);
      hide Extent, Merged, Count;
      forall i | 0 <= i < |s| ensures s[i].end <= r.start || r.end <= s[i].start {
        var x := if s[i].start <= r.start then r.start else s[i].start;
        if In(s[i], x) && In(r, x) {
          IndexCovers(s, x, i);
          CountShared(s, t, r, n, x);
        }
        NonEmptyAt(s, i);
      }
    }
  }

  predicate Touches(s: seq<Region>, r: Region) {
    exists i :: 0 <= i < |s| && (s[i].end == r.start || s[i].start == r.end)
  }

  /** t covers what s covers and what r covers. */
  ghost predicate AddsCover(s: seq<Region>, t: seq<Region>, r: Region) {
    forall x: int :: Covers(t, x) <==> Covers(s, x) || In(r, x)
  }

  /** The first i regions end before r starts. */
  predicate Below(s: seq<Region>, i: nat, r: Region) {
    forall k :: 0 <= k < i && k < |s| ==> s[k].end < r.start
  }

  lemma EmptyAddsNothing(s: seq<Region>, r: Region)
    requires r.start == r.end
    ensures AddsCover(s, s, r)
  {
  }

  lemma NothingBelow(s: seq<Region>, r: Region)
    ensures Below(s, 0, r)
  {
  }

  lemma BelowNext(s: seq<Region>, i: nat, r: Region)
    requires i < |s| && Below(s, i, r) && Disjoint(s, r) && Merged(s) && r.start < r.end
    requires s[i].end != r.start && s[i].start <= r.end && s[i].start != r.end
    ensures Below(s, i + 1, r)
  {
  }

  lemma NotTouching(s: seq<Region>, i: nat, r: Region)
    requires i <= |s| && NoneTouches(s, i, r) && r.start < r.end
    requires i < |s| ==> r.end < s[i].start && Merged(s)
    ensures !Touches(s, r)
  {
    forall k | 0 <= k < |s|
      ensures s[k].end != r.start && s[k].start != r.end
    {
      if k > i { assert s[i].end < s[k].start; }
    }
  }

  lemma Inserted(s: seq<Region>, i: nat, r: Region)
    requires i <= |s| && NonEmpty(s) && r.start < r.end
    requires i < |s| ==> r.end < s[i].start
    requires Merged(s) && Disjoint(s, r) ==> Below(s, i, r)
    ensures var t := s[..i] + [r] + s[i..];
            && NonEmpty(t) && AddsCover(s, t, r) && Extent(t) == Extent(s) + (r.end - r.start)
            && (Merged(s) && Disjoint(s, r) ==> Merged(t))
  {
    var t := s[..i] + [r] + s[i..];
    forall x: int
      ensures Covers(t, x) <==> Covers(s, x) || In(r, x)
    {
      InsertCovers(s, i, r, x);
    }
    InsertedExtent(s, i, r);
    if Merged(s) && Disjoint(s, r) { InsertedMerged(s, i, r); }
  }

  lemma InsertedExtent(s: seq<Region>, i: nat, r: Region)
    requires i <= |s|
    ensures Extent(s[..i] + [r] + s[i..]) == Extent(s) + (r.end - r.start)
  {
    hide Extent;
    assert s == s[..i] + s[i..];
    ExtentConcat(s[..i], s[i..]);
    ExtentConcat(s[..i] + [r], s[i..]);
    ExtentConcat(s[..i], [r]);
    ExtentOne(r);
  }

  lemma InsertedMerged(s: seq<Region>, i: nat, r: Region)
    requires i <= |s| && Below(s, i, r) && Merged(s) && r.start < r.end
    requires i < |s| ==> r.end < s[i].start
    ensures Merged(s[..i] + [r] + s[i..])
  {
    var t := s[..i] + [r] + s[i..];
    forall j, k | 0 <= j < k < |t|
      ensures t[j].end < t[k].start
    {
      assert t[j] == if j < i then s[j] else if j == i then r else s[j - 1];
      assert t[k] == if k < i then s[k] else if k == i then r else s[k - 1];
      if k > i + 1 && j == i { assert s[i].end < s[k - 1].start; }
    }
  }

  /** s[i] and r, which touch, are made one. */
  lemma Extended(s: seq<Region>, i: nat, p: Region, r: Region)
    requires i < |s| && NonEmpty(s) && r.start < r.end
    requires (s[i].start == r.end && p == Region(r.start, s[i].end))
             || (s[i].end == r.start && p == Region(s[i].start, r.end))
    requires Merged(s) && Disjoint(s, r) ==> Below(s, i, r)
    ensures var t := s[i := p];
            && NonEmpty(t) && AddsCover(s, t, r) && Touches(s, r) && Extent(t) == Extent(s) + (r.end - r.start)
            && (Merged(s) && Disjoint(s, r) ==> Sorted(t))
  {
    var t := s[i := p];
    forall x: int
      ensures Covers(t, x) <==> Covers(s, x) || In(r, x)
    {
      SetCovers(s, i, p, x);
      if In(s[i], x) { IndexCovers(s, x, i); }
    }
    ExtentSet(s, i, p);
    if Merged(s) && Disjoint(s, r) { ExtendedSorted(s, i, p, r); }
  }

  lemma ExtentSet(s: seq<Region>, i: nat, p: Region)
    requires i < |s|
    ensures Extent(s[i := p]) == Extent(s) - (s[i].end - s[i].start) + (p.end - p.start)
  {
    assert s == s[..i] + [s[i]] + s[i + 1..] && s[i := p] == s[..i] + [p] + s[i + 1..];
    ExtentConcat(s[..i] + [s[i]], s[i + 1..]);
    ExtentConcat(s[..i], [s[i]]);
    ExtentConcat(s[..i] + [p], s[i + 1..]);
    ExtentConcat(s[..i], [p]);
    ExtentOne(s[i]);
    ExtentOne(p);
  }

  lemma ExtendedSorted(s: seq<Region>, i: nat, p: Region, r: Region)
    requires i < |s| && Merged(s) && Disjoint(s, r) && Below(s, i, r) && r.start < r.end
    requires (s[i].start == r.end && p == Region(r.start, s[i].end))
             || (s[i].end == r.start && p == Region(s[i].start, r.end))
    ensures Sorted(s[i := p])
  {
    var t := s[i := p];
    forall j, k | 0 <= j < k < |t|
      ensures t[j].end <= t[k].start
    {
      assert s[j].end < s[k].start;
    }
  }

  lemma NonEmptyAt(s: seq<Region>, i: nat)
    requires NonEmpty(s) && i < |s|
    ensures s[i].start < s[i].end
  {
  }

  lemma AddsCoverTo(s: seq<Region>, t: seq<Region>, u: seq<Region>, r: Region)
    requires AddsCover(s, t, r) && SameCover(u, t)
    ensures AddsCover(s, u, r)
  {
  }

  /** The same addresses are covered. */
  ghost predicate SameCover(s: seq<Region>, t: seq<Region>) {
    forall x: int :: Covers(s, x) <==> Covers(t, x)
  }

  /** No two of the first i regions touch. */
  predicate MergedUpTo(s: seq<Region>, i: nat) {
    forall k :: 0 < k < i && k < |s| ==> s[k - 1].end < s[k].start
  }

  lemma StartMerging(s: seq<Region>)
    ensures MergedUpTo(s, 1) && SameCover(s, s)
  {
  }

  lemma JoinStep(s: seq<Region>, i: nat, t: seq<Region>)
    requires 0 < i < |s| && NonEmpty(s) && SameCover(s, t) && s[i - 1].end == s[i].start
    ensures NonEmpty(Join(s, i)) && SameCover(Join(s, i), t) && Extent(Join(s, i)) == Extent(s)
  {
    var r := Join(s, i);
    forall x: int
      ensures Covers(r, x) <==> Covers(t, x)
    {
      JoinCovers(s, i, x);
    }
    JoinExtent(s, i);
  }

  lemma JoinExtent(s: seq<Region>, i: nat)
    requires 0 < i < |s| && s[i - 1].end == s[i].start
    ensures Extent(Join(s, i)) == Extent(s)
  {
    var a, b, p := s[..i - 1], s[i + 1..], Region(s[i - 1].start, s[i].end);
    assert s == a + [s[i - 1]] + [s[i]] + b;
    ExtentConcat(a + [s[i - 1]] + [s[i]], b);
    ExtentConcat(a + [s[i - 1]], [s[i]]);
    ExtentConcat(a, [s[i - 1]]);
    ExtentConcat(a + [p], b);
    ExtentConcat(a, [p]);
    ExtentOne(s[i - 1]);
    ExtentOne(s[i]);
    ExtentOne(p);
  }

  lemma JoinKeepsOrder(s: seq<Region>, i: nat)
    requires 0 < i < |s| && Sorted(s) && MergedUpTo(s, i) && s[i - 1].end == s[i].start
    ensures Sorted(Join(s, i)) && MergedUpTo(Join(s, i), i)
  {
    var r := Join(s, i);
    forall j, k | 0 <= j < k < |r|
      ensures r[j].end <= r[k].start
    {
      assert r[j] == if j < i - 1 then s[j] else if j == i - 1 then Region(s[i - 1].start, s[i].end) else s[j + 1];
      assert r[k] == if k < i - 1 then s[k] else if k == i - 1 then Region(s[i - 1].start, s[i].end) else s[k + 1];
    }
  }

  lemma ApartStep(s: seq<Region>, i: nat)
    requires 0 < i < |s| && Sorted(s) && MergedUpTo(s, i) && s[i - 1].end != s[i].start
    ensures MergedUpTo(s, i + 1)
  {
  }

  lemma StepwiseMerged(s: seq<Region>, n: nat)
    requires Sorted(s) && NonEmpty(s) && MergedUpTo(s, n) && |s| <= n
    ensures Merged(s)
  {
    forall i, j | 0 <= i < j < |s|
      ensures s[i].end < s[j].start
    {
      assert s[i].end <= s[j].start;
      if i + 1 < j { assert s[i].end <= s[j - 1].start && s[j - 1].end < s[j].start; }
      else { assert s[j - 1].end < s[j].start; }
    }
  }
}
