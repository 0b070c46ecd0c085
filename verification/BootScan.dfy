/** Subtracting the reserved regions from the available ones, as a walk over both sorted lists. */
module BootScan {
  import opened BootMemory

  /** The regions found free so far, and what is left of the available and of the reserved regions. */
  datatype Scan = Scan(free: seq<Region>, rest: seq<Region>, left: seq<Region>)

  function MinOf(a: nat, b: nat): nat {
    if a <= b then a else b
  }

  /** One iteration of the walk. */
  function Step(s: Scan): Scan
    requires s.rest != [] && s.left != []
  {
    var r, a := s.left[0], s.rest[0];
    if r.start == r.end then s.(left := s.left[1..])
    else if a.start >= a.end then s.(rest := s.rest[1..])
    else if r.end <= a.start then s.(left := s.left[1..])
    else if r.start >= a.end then s.(free := s.free + [a], rest := s.rest[1..])
    else if r.start <= a.start then s.(rest := s.rest[0 := Region(MinOf(a.end, r.end), a.end)])
    else if a.end > r.end then
      s.(free := s.free + [Region(a.start, r.start)], rest := s.rest[0 := Region(r.end, a.end)])
    else
      s.(free := s.free + [Region(a.start, r.start)], rest := s.rest[1..])
  }

  predicate Shape(s: Scan) {
    Sorted(s.free + s.rest) && Sorted(s.left) && NonEmpty(s.free)
  }

  /** What is free, or still available and not reserved, is what was available and not reserved. */
  ghost predicate Exact(s: Scan, available: seq<Region>, reserved: seq<Region>) {
    forall x: int ::
      (Covers(s.free, x) || (Covers(s.rest, x) && !Covers(s.left, x)))
      <==> (Covers(available, x) && !Covers(reserved, x))
  }

  lemma {:induction false} SortedBounds(s: seq<Region>, low: nat, x: int)
    requires (forall i :: 0 <= i < |s| ==> low <= s[i].start) && Covers(s, x)
    ensures low <= x
  {
    if !In(s[0], x) { SortedBounds(s[1..], low, x); }
  }

  lemma HeadBounds(s: seq<Region>, x: int)
    requires Sorted(s) && s != []
    ensures Covers(s[1..], x) ==> s[0].end <= x
    ensures Covers(s, x) ==> s[0].start <= x
  {
    if Covers(s[1..], x) { SortedBounds(s[1..], s[0].end, x); }
  }

  lemma TailSorted(s: Scan)
    requires Shape(s)
    ensures Sorted(s.rest) && Sorted(s.free)
  {
    var w := s.free + s.rest;
    forall i | 0 <= i < |s.rest|
      ensures s.rest[i].start <= s.rest[i].end
    {
      assert w[|s.free| + i] == s.rest[i];
    }
    forall i, j | 0 <= i < j < |s.rest|
      ensures s.rest[i].end <= s.rest[j].start
    {
      assert w[|s.free| + i] == s.rest[i] && w[|s.free| + j] == s.rest[j];
    }
    assert forall i :: 0 <= i < |s.free| ==> w[i] == s.free[i];
  }

  lemma StepCovers(s: Scan, x: int)
    requires Shape(s) && s.rest != [] && s.left != []
    ensures (Covers(Step(s).free, x) || (Covers(Step(s).rest, x) && !Covers(Step(s).left, x)))
       <==> (Covers(s.free, x) || (Covers(s.rest, x) && !Covers(s.left, x)))
  {
    TailSorted(s);
    HeadBounds(s.rest, x);
    HeadBounds(s.left, x);
    var t := Step(s);
    if |t.free| > |s.free| {
      var m := t.free[|s.free|];
      CoversConcat(s.free, [m], x);
      CoversOne(m, x);
    }
    if |t.rest| == |s.rest| { assert t.rest[1..] == s.rest[1..]; }
  }

  lemma StepKeepsExact(s: Scan, available: seq<Region>, reserved: seq<Region>)
    requires Shape(s) && s.rest != [] && s.left != [] && Exact(s, available, reserved)
    ensures Exact(Step(s), available, reserved)
  {
    var t := Step(s);
    hide Step, Shape;
    forall x: int
      ensures (Covers(t.free, x) || (Covers(t.rest, x) && !Covers(t.left, x)))
         <==> (Covers(available, x) && !Covers(reserved, x))
    {
      StepCovers(s, x);
    }
  }

  lemma DropSorted(w: seq<Region>, n: nat)
    requires Sorted(w) && n < |w|
    ensures Sorted(w[..n] + w[n + 1..])
  {
    var v := w[..n] + w[n + 1..];
    forall i, j | 0 <= i < j < |v|
      ensures v[i].end <= v[j].start
    {
      assert v[i] == if i < n then w[i] else w[i + 1];
      assert v[j] == if j < n then w[j] else w[j + 1];
    }
  }

  lemma ShrinkSorted(w: seq<Region>, n: nat, r: Region)
    requires Sorted(w) && n < |w| && w[n].start <= r.start <= r.end <= w[n].end
    ensures Sorted(w[n := r])
  {
  }

  lemma AppendNonEmpty(s: seq<Region>, r: Region)
    requires NonEmpty(s) && r.start < r.end
    ensures NonEmpty(s + [r])
  {
  }

  lemma HeadOk(s: seq<Region>)
    requires Sorted(s) && s != []
    ensures s[0].start <= s[0].end
  {
  }

  /** Each step keeps, drops, shrinks or splits the first of the remaining regions. */
  lemma StepKeepsShape(s: Scan)
    requires Shape(s) && s.rest != [] && s.left != []
    ensures Shape(Step(s))
  {
    hide Sorted, NonEmpty;
    var t := Step(s);
    var w, v, n := s.free + s.rest, t.free + t.rest, |s.free|;
    var a, r := s.rest[0], s.left[0];
    assert w[n] == a;
    HeadOk(s.left);
    DropSorted(s.left, 0);
    assert s.left[..0] + s.left[0 + 1..] == s.left[1..];
    if r.start == r.end || (a.start < a.end && r.end <= a.start) {
    } else if a.start >= a.end {
      DropSorted(w, n);
      assert v == w[..n] + w[n + 1..];
    } else if r.start >= a.end {
      AppendNonEmpty(s.free, a);
      assert v == w;
    } else if r.start <= a.start {
      var p := Region(MinOf(a.end, r.end), a.end);
      ShrinkSorted(w, n, p);
      assert v == w[n := p];
    } else if a.end > r.end {
      AppendNonEmpty(s.free, Region(a.start, r.start));
      SplitSorted(w, n, r.start, r.end);
      assert v == w[..n] + [Region(w[n].start, r.start), Region(r.end, w[n].end)] + w[n + 1..];
    } else {
      var p := Region(a.start, r.start);
      AppendNonEmpty(s.free, p);
      ShrinkSorted(w, n, p);
      assert v == w[n := p];
    }
  }

  lemma SplitSorted(w: seq<Region>, n: nat, p: nat, q: nat)
    requires Sorted(w) && n < |w| && w[n].start <= p <= q <= w[n].end
    ensures Sorted(w[..n] + [Region(w[n].start, p), Region(q, w[n].end)] + w[n + 1..])
  {
    var v := w[..n] + [Region(w[n].start, p), Region(q, w[n].end)] + w[n + 1..];
    forall i, j | 0 <= i < j < |v|
      ensures v[i].end <= v[j].start
    {
      var i0 := if i <= n then i else i - 1;
      var j0 := if j <= n then j else j - 1;
      assert i0 < j0 ==> w[i0].end <= w[j0].start;
    }
  }
}
