/** The ready queues with their two-level bitmap, and the choice of the next thread. */
module Scheduler {
  import opened Words
  import opened Bitmap
  import opened BitCount

  const PRIORITIES: nat := 256
  const L2_SIZE: nat := 4

  function L1Index(prio: nat): nat {
    prio / 64
  }

  function Invert(i: nat): nat
    requires i < L2_SIZE
  {
    L2_SIZE - 1 - i
  }

  /** One domain's ready queues: a queue for each priority, a bitmap of four words, and a bitmap of those words. */
  datatype Domain = Domain(queues: seq<seq<nat>>, l1: Word, l2: seq<Word>)

  /** Each queue has a bit that says whether it is empty, each word of those a bit that says whether it is zero. */
  predicate DomainOk(d: Domain) {
    && |d.queues| == PRIORITIES && |d.l2| == L2_SIZE && d.l1 < Pow2(L2_SIZE)
    && (forall p :: 0 <= p < PRIORITIES ==> QueueBit(d, p))
    && (forall i :: 0 <= i < L2_SIZE ==> WordBit(d, i))
  }

  predicate QueueBit(d: Domain, p: nat)
    requires |d.queues| == PRIORITIES && |d.l2| == L2_SIZE && p < PRIORITIES
  {
    d.queues[p] != [] <==> IsSet(d.l2[Invert(L1Index(p))], p % 64)
  }

  predicate WordBit(d: Domain, i: nat)
    requires |d.l2| == L2_SIZE && i < L2_SIZE
  {
    IsSet(d.l1, i) <==> d.l2[Invert(i)] != 0
  }

  function EmptyDomain(): Domain {
    Domain(seq(PRIORITIES, _ => []), 0, seq(L2_SIZE, _ => 0))
  }

  lemma EmptyDomainOk()
    ensures DomainOk(EmptyDomain())
  {
    var d := EmptyDomain();
    forall p | 0 <= p < PRIORITIES
      ensures QueueBit(d, p)
    {
      NoBitsInZero(p % 64);
    }
    forall i | 0 <= i < L2_SIZE
      ensures WordBit(d, i)
    {
      NoBitsInZero(i);
    }
  }

  /** p is the highest priority with a ready thread. */
  predicate IsHighest(d: Domain, p: nat) {
    p < |d.queues| && d.queues[p] != [] && forall q :: p < q < |d.queues| ==> d.queues[q] == []
  }

  /** Some queue is occupied exactly if the first-level word is not zero. */
  lemma OccupiedBits(d: Domain, p: nat)
    requires DomainOk(d) && p < PRIORITIES && d.queues[p] != []
    ensures d.l1 != 0 && IsSet(d.l1, L1Index(p)) && IsSet(d.l2[Invert(L1Index(p))], p % 64)
  {
    assert QueueBit(d, p) && WordBit(d, L1Index(p));
    NoBitsInZero(p % 64);
    NoBitsInZero(L1Index(p));
  }

  lemma HighestIs(d: Domain, i: nat, j: nat)
    requires DomainOk(d) && i < L2_SIZE && j < 64
    requires Pow2(i) <= d.l1 < Pow2(i + 1) && Pow2(j) <= d.l2[Invert(i)] < Pow2(j + 1)
    ensures IsHighest(d, i * 64 + j)
  {
    hide Pow2;
    var p := i * 64 + j;
    HighestBit(d.l2[Invert(i)], j, 0);
    assert L1Index(p) == i && p % 64 == j && QueueBit(d, p);
    forall q | p < q < |d.queues|
      ensures d.queues[q] == []
    {
      HighestBit(d.l1, i, L1Index(q));
      HighestBit(d.l2[Invert(i)], j, q % 64);
      if d.queues[q] != [] { OccupiedBits(d, q); }
    }
  }

  /** getHighestPrio */
  method HighestPriority(d: Domain) returns (p: nat)
    requires DomainOk(d) && d.l1 != 0
    ensures IsHighest(d, p)
  {
    hide Pow2;
    var z1 := Clz64(d.l1);
    var i := 63 - z1;
    TopIndex(d, i);
    var z2 := Clz64(d.l2[Invert(i)]);
    var j := 63 - z2;
    HighestIs(d, i, j);
    p := i * 64 + j;
  }

  lemma TopIndex(d: Domain, i: nat)
    requires DomainOk(d) && Pow2(i) <= d.l1 < Pow2(i + 1)
    ensures i < L2_SIZE && d.l2[Invert(i)] != 0
  {
    hide Pow2;
    HighestBit(d.l1, i, 0);
    if i >= L2_SIZE { BitsBelow(d.l1, L2_SIZE, i); }
    assert WordBit(d, i);
  }

  /** isHighestPrio: no ready thread has a higher priority. */
  method IsHighestPriority(d: Domain, prio: nat) returns (b: bool)
    requires DomainOk(d)
    ensures b <==> forall q :: prio < q < |d.queues| ==> d.queues[q] == []
  {
    if d.l1 == 0 {
      forall q | prio < q < |d.queues|
        ensures d.queues[q] == []
      {
        if d.queues[q] != [] { OccupiedBits(d, q); }
      }
      b := true;
    } else {
      var h := HighestPriority(d);
      b := prio >= h;
    }
  }

  // ------------------------------------------------------------------ queue and bitmap updates

  /** A queue that becomes occupied sets its bit and its word's bit. */
  function Occupy(d: Domain, p: nat): Domain
    requires DomainOk(d) && p < PRIORITIES
  {
    var i := Invert(L1Index(p));
    BitsFit(d, p);
    d.(l1 := SetBit(d.l1, L1Index(p)), l2 := d.l2[i := SetBit(d.l2[i], p % 64)])
  }

  lemma BitsFit(d: Domain, p: nat)
    requires DomainOk(d) && p < PRIORITIES
    ensures SetBit(d.l1, L1Index(p)) < Pow2(L2_SIZE) <= WORD
    ensures SetBit(d.l2[Invert(L1Index(p))], p % 64) < WORD
    ensures ClearBit(d.l1, L1Index(p)) <= d.l1 && ClearBit(d.l2[Invert(L1Index(p))], p % 64) < WORD
  {
    SetBitFits(d.l1, L1Index(p), L2_SIZE);
    Pow2Word();
    SetBitFits(d.l2[Invert(L1Index(p))], p % 64, 64);
    assert Pow2(4) == 16;
  }

  /** A queue that becomes empty clears its bit, and its word's bit if that was the last. */
  function Vacate(d: Domain, p: nat): Domain
    requires DomainOk(d) && p < PRIORITIES
  {
    var i := Invert(L1Index(p));
    BitsFit(d, p);
    var word := ClearBit(d.l2[i], p % 64);
    d.(l1 := if word == 0 then ClearBit(d.l1, L1Index(p)) else d.l1, l2 := d.l2[i := word])
  }

  /** The domain with another queue at priority p, and the bitmap kept in step. */
  function WithQueue(d: Domain, p: nat, q: seq<nat>): Domain
    requires DomainOk(d) && p < PRIORITIES
  {
    var marked := if q == [] then Vacate(d, p) else if d.queues[p] == [] then Occupy(d, p) else d;
    marked.(queues := d.queues[p := q])
  }

  lemma OccupyOk(d: Domain, p: nat, q: seq<nat>)
    requires DomainOk(d) && p < PRIORITIES && q != []
    ensures DomainOk(Occupy(d, p).(queues := d.queues[p := q]))
  {
    hide Pow2, IsSet, SetBit;
    BitsFit(d, p);
    var r := Occupy(d, p).(queues := d.queues[p := q]);
    var i := Invert(L1Index(p));
    forall x | 0 <= x < PRIORITIES
      ensures QueueBit(r, x)
    {
      assert QueueBit(d, x);
      SetBitAt(d.l2[i], p % 64, x % 64);
    }
    forall k | 0 <= k < L2_SIZE
      ensures WordBit(r, k)
    {
      assert WordBit(d, k);
      SetBitAt(d.l1, L1Index(p), k);
      SetBitAt(d.l2[i], p % 64, p % 64);
      NoBitsInZero(p % 64);
    }
  }

  lemma VacateOk(d: Domain, p: nat)
    requires DomainOk(d) && p < PRIORITIES
    ensures DomainOk(Vacate(d, p).(queues := d.queues[p := []]))
  {
    hide Pow2, IsSet, ClearBit;
    BitsFit(d, p);
    var r := Vacate(d, p).(queues := d.queues[p := []]);
    var i := Invert(L1Index(p));
    forall x | 0 <= x < PRIORITIES
      ensures QueueBit(r, x)
    {
      assert QueueBit(d, x);
      ClearBitAt(d.l2[i], p % 64, x % 64);
    }
    forall k | 0 <= k < L2_SIZE
      ensures WordBit(r, k)
    {
      assert WordBit(d, k);
      ClearBitAt(d.l1, L1Index(p), k);
      ClearZero(d.l2[i], p % 64);
    }
  }

  lemma ClearZero(w: nat, i: nat)
    ensures ClearBit(w, i) != 0 ==> w != 0
  {
    NoBitsInZero(i);
  }

  lemma WithQueueOk(d: Domain, p: nat, q: seq<nat>)
    requires DomainOk(d) && p < PRIORITIES
    ensures DomainOk(WithQueue(d, p, q))
  {
    hide Occupy, Vacate, Pow2;
    if q == [] {
      VacateOk(d, p);
    } else if d.queues[p] == [] {
      OccupyOk(d, p, q);
    } else {
      var r := d.(queues := d.queues[p := q]);
      forall x | 0 <= x < PRIORITIES
        ensures QueueBit(r, x)
      {
        assert QueueBit(d, x);
      }
      forall k | 0 <= k < L2_SIZE
        ensures WordBit(r, k)
      {
        assert WordBit(d, k);
      }
    }
  }
}
