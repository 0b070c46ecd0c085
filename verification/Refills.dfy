/**
 * The sporadic-server refill queue as a plain sequence: what each operation does to it,
 * and the invariant every operation keeps.
 */
module Refills {
  import opened Words

  /** amount ticks that may be used from time on. */
  datatype Refill = Refill(time: nat, amount: nat)

  /** Platform constants: the least budget that lets a thread enter the kernel, and the longest period. */
  datatype Limits = Limits(minBudget: nat, maxPeriod: nat) {
    predicate Sane() {
      0 < minBudget <= maxPeriod && 5 * maxPeriod < WORD
    }

    /** Times from here on are too close to the end of the 64-bit clock to be postponed. */
    function MaxRelease(): int {
      WORD - 1 - 5 * maxPeriod
    }
  }

  const MIN_REFILLS := 2

  function End(r: Refill): nat {
    r.time + r.amount
  }

  function Last(q: seq<Refill>): Refill
    requires q != []
  {
    q[|q| - 1]
  }

  function Sum(q: seq<Refill>): nat {
    if q == [] then 0 else q[0].amount + Sum(q[1..])
  }

  predicate Positive(q: seq<Refill>) {
    forall i :: 0 <= i < |q| ==> q[i].amount > 0
  }

  /** Each refill ends no later than the next begins. */
  predicate Ordered(q: seq<Refill>) {
    forall i, j :: 0 <= i < j < |q| ==> End(q[i]) <= q[j].time
  }

  /** The part of the invariant that also holds half way through an operation. */
  predicate Queue(q: seq<Refill>, period: nat, budget: nat, max: nat) {
    && 1 <= |q| <= max
    && Sum(q) == budget
    && Positive(q)
    && Ordered(q)
    && Last(q).time <= q[0].time + period
  }

  predicate Parameters(lim: Limits, period: nat, budget: nat, max: nat) {
    && lim.Sane()
    && lim.minBudget <= budget <= period <= lim.maxPeriod
    && MIN_REFILLS <= max
  }

  predicate Bounded(q: seq<Refill>, lim: Limits, period: nat, budget: nat, max: nat) {
    && Parameters(lim, period, budget, max)
    && Queue(q, period, budget, max)
    && q[0].time <= lim.MaxRelease() + lim.maxPeriod
  }

  /** The invariant of a scheduling context that is not round robin. */
  predicate Inv(q: seq<Refill>, lim: Limits, period: nat, budget: nat, max: nat) {
    && Bounded(q, lim, period, budget, max)
    && lim.minBudget <= q[0].amount
  }

  /** The invariant of a round robin scheduling context: what is left of the slice, and what has been used. */
  predicate RoundRobin(q: seq<Refill>, lim: Limits, budget: nat, max: nat) {
    && lim.Sane()
    && |q| == MIN_REFILLS <= max
    && q[0].amount + q[1].amount == budget <= lim.maxPeriod
    && lim.minBudget <= q[0].amount
    && q[0].time <= lim.MaxRelease() + lim.maxPeriod
  }

  // ------------------------------------------------------------------ operations

  function ScheduleUsed(q: seq<Refill>, max: nat, used: Refill): seq<Refill>
    requires q != []
  {
    var tail := Last(q);
    if End(tail) >= used.time then
      q[|q| - 1 := Refill(tail.time, tail.amount + used.amount)]
    else if |q| < max then
      q + [used]
    else
      q[|q| - 1 := Refill(used.time - tail.amount, tail.amount + used.amount)]
  }

  function ChargeHead(q: seq<Refill>, period: nat, max: nat): seq<Refill>
    requires q != []
  {
    var late := Refill(q[0].time + period, q[0].amount);
    if |q| == 1 then [late] else ScheduleUsed(q[1..], max, late)
  }

  function ChargePart(q: seq<Refill>, period: nat, max: nat, usage: nat): seq<Refill>
    requires q != [] && usage < q[0].amount
  {
    ScheduleUsed(q[0 := Refill(q[0].time + usage, q[0].amount - usage)], max, Refill(q[0].time + period, usage))
  }

  predicate Overrun(q: seq<Refill>, lim: Limits, usage: nat)
    requires q != []
  {
    q[0].amount <= usage && q[0].time < lim.MaxRelease()
  }

  /** The queue and the usage left after charging whole head refills for as long as possible. */
  function HandleOverrun(q: seq<Refill>, lim: Limits, period: nat, budget: nat, max: nat, usage: nat):
    (r: (seq<Refill>, nat))
    requires Queue(q, period, budget, max) && budget <= period && MIN_REFILLS <= max
    ensures Queue(r.0, period, budget, max) && r.1 <= usage
    ensures !Overrun(r.0, lim, r.1)
    decreases usage
  {
    if Overrun(q, lim, usage) then
      ChargeHeadKeepsQueue(q, period, budget, max);
      HandleOverrun(ChargeHead(q, period, max), lim, period, budget, max, usage - q[0].amount)
    else
      (q, usage)
  }

  function MergeHead(q: seq<Refill>): seq<Refill>
    requires |q| >= 2 && q[0].amount <= q[1].time
  {
    [Refill(q[1].time - q[0].amount, q[1].amount + q[0].amount)] + q[2..]
  }

  /** Merges the head into its successor until the head holds the minimum budget. */
  function EnsureMinBudget(q: seq<Refill>, minBudget: nat, period: nat, budget: nat, max: nat): (r: seq<Refill>)
    requires Queue(q, period, budget, max) && minBudget <= budget
    ensures Queue(r, period, budget, max) && minBudget <= r[0].amount
    decreases |q|
  {
    if q[0].amount < minBudget then
      MergeHeadKeepsQueue(q, minBudget, period, budget, max);
      EnsureMinBudget(MergeHead(q), minBudget, period, budget, max)
    else
      q
  }

  /** What charging leaves before the head is brought back to the minimum budget. */
  function Charge(q: seq<Refill>, lim: Limits, period: nat, budget: nat, max: nat, usage: nat): (r: seq<Refill>)
    requires Queue(q, period, budget, max) && budget <= period && MIN_REFILLS <= max
    ensures Queue(r, period, budget, max)
  {
    var (q1, left) := HandleOverrun(q, lim, period, budget, max, usage);
    if left > 0 && q1[0].time < lim.MaxRelease() then
      ChargePartKeepsQueue(q1, period, budget, max, left);
      ChargePart(q1, period, max, left)
    else
      q1
  }

  function BudgetCheck(q: seq<Refill>, lim: Limits, period: nat, budget: nat, max: nat, usage: nat): seq<Refill>
    requires Queue(q, period, budget, max) && Parameters(lim, period, budget, max)
  {
    EnsureMinBudget(Charge(q, lim, period, budget, max, usage), lim.minBudget, period, budget, max)
  }

  predicate HeadOverlapping(q: seq<Refill>)
    requires q != []
  {
    |q| > 1 && q[1].time <= End(q[0])
  }

  /** Folds every refill the head reaches into the head. */
  function MergeOverlapping(q: seq<Refill>): (r: seq<Refill>)
    requires q != []
    ensures r != [] && !HeadOverlapping(r)
    decreases |q|
  {
    if HeadOverlapping(q) then
      MergeOverlapping([Refill(q[0].time, q[1].amount + q[0].amount)] + q[2..])
    else
      q
  }

  function UnblockCheck(q: seq<Refill>, now: nat): seq<Refill>
    requires q != []
  {
    if q[0].time <= now then MergeOverlapping(q[0 := Refill(now, q[0].amount)]) else q
  }

  function EmptyTail(head: Refill, period: nat): seq<Refill> {
    if period == 0 then [Refill(head.time, 0)] else []
  }

  function NewQueue(now: nat, period: nat, budget: nat): seq<Refill> {
    [Refill(now, budget)] + EmptyTail(Refill(now, budget), period)
  }

  function Update(q: seq<Refill>, now: nat, period: nat, budget: nat): seq<Refill>
    requires q != []
  {
    var time := if q[0].time <= now then now else q[0].time;
    if q[0].amount >= budget then
      [Refill(time, budget)] + EmptyTail(Refill(time, budget), period)
    else
      [Refill(time, q[0].amount), Refill(time + period, budget - q[0].amount)]
  }

  function CommitRoundRobin(q: seq<Refill>, usage: nat): seq<Refill>
    requires |q| == MIN_REFILLS && usage <= q[0].amount
  {
    [Refill(q[0].time, q[0].amount - usage), Refill(q[1].time, q[1].amount + usage)]
  }

  function ChargeRoundRobin(q: seq<Refill>): seq<Refill>
    requires |q| == MIN_REFILLS
  {
    [Refill(q[0].time, q[0].amount + q[1].amount), Refill(q[1].time, 0)]
  }

  // ------------------------------------------------------------------ sums

  lemma {:induction false} SumConcat(a: seq<Refill>, b: seq<Refill>)
    ensures Sum(a + b) == Sum(a) + Sum(b)
  {
    if a == [] {
      assert a + b == b;
    } else {
      assert (a + b)[1..] == a[1..] + b;
      SumConcat(a[1..], b);
    }
  }

  lemma SumLast(q: seq<Refill>)
    requires q != []
    ensures Sum(q) == Sum(q[..|q| - 1]) + Last(q).amount
  {
    assert q == q[..|q| - 1] + [Last(q)];
    SumConcat(q[..|q| - 1], [Last(q)]);
  }

  lemma ScheduleUsedSum(q: seq<Refill>, max: nat, used: Refill)
    requires q != []
    ensures Sum(ScheduleUsed(q, max, used)) == Sum(q) + used.amount
  {
    var r := ScheduleUsed(q, max, used);
    if |r| == |q| {
      assert r[..|r| - 1] == q[..|q| - 1];
      SumLast(q);
      SumLast(r);
    } else {
      SumConcat(q, [used]);
    }
  }

  // ------------------------------------------------------------------ the invariant is kept

  /** Adding a refill that starts no earlier than the tail and no more than a period after the head. */
  lemma ScheduleUsedKeepsOrder(q: seq<Refill>, period: nat, max: nat, used: Refill)
    requires 1 <= |q| <= max && Positive(q) && Ordered(q) && used.amount > 0
    requires Last(q).time <= used.time <= q[0].time + period
    requires |q| == 1 ==> MIN_REFILLS <= max
    ensures var r := ScheduleUsed(q, max, used);
            && 1 <= |r| <= max && Positive(r) && Ordered(r)
            && r[0].time == q[0].time && Last(r).time <= r[0].time + period
  {
    var r := ScheduleUsed(q, max, used);
    forall i, j | 0 <= i < j < |r|
      ensures End(r[i]) <= r[j].time
    {
      if j < |q| {
        assert End(q[i]) <= q[j].time;
      } else if i < |q| - 1 {
        assert End(q[i]) <= q[|q| - 1].time;
      }
    }
  }

  lemma ChargeHeadKeepsQueue(q: seq<Refill>, period: nat, budget: nat, max: nat)
    requires Queue(q, period, budget, max) && MIN_REFILLS <= max
    ensures Queue(ChargeHead(q, period, max), period, budget, max)
    ensures q[0].time <= ChargeHead(q, period, max)[0].time <= q[0].time + period
    ensures Last(ChargeHead(q, period, max)).time <= q[0].time + period
  {
    if |q| > 1 {
      var late := Refill(q[0].time + period, q[0].amount);
      ScheduleUsedKeepsOrder(q[1..], period, max, late);
      ScheduleUsedSum(q[1..], max, late);
      assert End(q[0]) <= q[1].time;
      if |q| > 2 { assert End(q[1]) <= q[|q| - 1].time; }
    } else {
      assert Sum(q) == q[0].amount + Sum([]);
    }
  }

  lemma ChargePartKeepsQueue(q: seq<Refill>, period: nat, budget: nat, max: nat, usage: nat)
    requires Queue(q, period, budget, max) && budget <= period && MIN_REFILLS <= max
    requires 0 < usage < q[0].amount
    ensures Queue(ChargePart(q, period, max, usage), period, budget, max)
    ensures ChargePart(q, period, max, usage)[0].time == q[0].time + usage
    ensures ChargePart(q, period, max, usage)[0].amount >= q[0].amount - usage
    ensures Last(ChargePart(q, period, max, usage)).time <= q[0].time + period
  {
    var head := Refill(q[0].time + usage, q[0].amount - usage);
    var used := Refill(q[0].time + period, usage);
    var q1 := q[0 := head];
    forall i, j | 0 <= i < j < |q1|
      ensures End(q1[i]) <= q1[j].time
    {
      assert End(q[i]) <= q[j].time;
    }
    assert q1[1..] == q[1..];
    HeadWithinSum(q);
    ScheduleUsedKeepsOrder(q1, period, max, used);
    ScheduleUsedSum(q1, max, used);
  }

  lemma HeadWithinSum(q: seq<Refill>)
    requires q != []
    ensures q[0].amount <= Sum(q)
    ensures |q| == 1 ==> q[0].amount == Sum(q)
  {
    assert |q| == 1 ==> q[1..] == [];
  }

  /** An insufficient head is never the only refill, and merging it keeps the queue. */
  lemma MergeHeadKeepsQueue(q: seq<Refill>, minBudget: nat, period: nat, budget: nat, max: nat)
    requires Queue(q, period, budget, max) && minBudget <= budget && q[0].amount < minBudget
    ensures |q| >= 2 && q[0].amount <= q[1].time
    ensures Queue(MergeHead(q), period, budget, max)
    ensures q[0].time <= MergeHead(q)[0].time && Last(MergeHead(q)).time <= Last(q).time
  {
    HeadWithinSum(q);
    assert End(q[0]) <= q[1].time;
    var r := MergeHead(q);
    assert r[1..] == q[2..] == q[1..][1..];
    forall i, j | 0 <= i < j < |r|
      ensures End(r[i]) <= r[j].time
    {
      assert End(q[i + 1]) <= q[j + 1].time;
    }
    assert |q| > 2 ==> Last(r) == Last(q);
  }

  lemma {:induction false} MinBudgetTimes(q: seq<Refill>, minBudget: nat, period: nat, budget: nat, max: nat)
    requires Queue(q, period, budget, max) && minBudget <= budget
    ensures var r := EnsureMinBudget(q, minBudget, period, budget, max);
            q[0].time <= r[0].time && Last(r).time <= Last(q).time
    decreases |q|
  {
    if q[0].amount < minBudget {
      MergeHeadKeepsQueue(q, minBudget, period, budget, max);
      MinBudgetTimes(MergeHead(q), minBudget, period, budget, max);
    }
  }

  lemma {:induction false} OverrunTimes(q: seq<Refill>, lim: Limits, period: nat, budget: nat, max: nat, usage: nat)
    requires Queue(q, period, budget, max) && budget <= period && MIN_REFILLS <= max
    ensures var r := HandleOverrun(q, lim, period, budget, max, usage).0;
            q[0].time <= r[0].time && (r == q || Last(r).time < lim.MaxRelease() + period)
    decreases usage
  {
    if Overrun(q, lim, usage) {
      ChargeHeadKeepsQueue(q, period, budget, max);
      OverrunTimes(ChargeHead(q, period, max), lim, period, budget, max, usage - q[0].amount);
    }
  }

  lemma HeadBeforeLast(q: seq<Refill>)
    requires q != [] && Ordered(q)
    ensures q[0].time <= Last(q).time
  {
    if |q| > 1 { assert End(q[0]) <= q[|q| - 1].time; }
  }

  lemma ChargeHeadKeepsBounded(q: seq<Refill>, lim: Limits, period: nat, budget: nat, max: nat)
    requires Bounded(q, lim, period, budget, max) && q[0].time < lim.MaxRelease()
    ensures Bounded(ChargeHead(q, period, max), lim, period, budget, max)
    ensures Last(ChargeHead(q, period, max)).time < lim.MaxRelease() + period
  {
    ChargeHeadKeepsQueue(q, period, budget, max);
  }

  lemma ChargePartKeepsBounded(q: seq<Refill>, lim: Limits, period: nat, budget: nat, max: nat, usage: nat)
    requires Bounded(q, lim, period, budget, max) && q[0].time < lim.MaxRelease() && 0 < usage < q[0].amount
    ensures Bounded(ChargePart(q, period, max, usage), lim, period, budget, max)
    ensures Last(ChargePart(q, period, max, usage)).time < lim.MaxRelease() + period
  {
    HeadWithinSum(q);
    ChargePartKeepsQueue(q, period, budget, max, usage);
  }

  lemma MergeHeadKeepsBounded(q: seq<Refill>, lim: Limits, period: nat, budget: nat, max: nat)
    requires Bounded(q, lim, period, budget, max) && q[0].amount < lim.minBudget
    requires Last(q).time < lim.MaxRelease() + period
    ensures |q| >= 2 && q[0].amount <= q[1].time
    ensures Bounded(MergeHead(q), lim, period, budget, max)
    ensures Last(MergeHead(q)).time < lim.MaxRelease() + period
  {
    MergeHeadKeepsQueue(q, lim.minBudget, period, budget, max);
    HeadBeforeLast(MergeHead(q));
  }

  /** refill_budget_check keeps the invariant for any usage, and only ever moves the head later. */
  lemma BudgetCheckKeepsInv(q: seq<Refill>, lim: Limits, period: nat, budget: nat, max: nat, usage: nat)
    requires Inv(q, lim, period, budget, max)
    ensures Inv(BudgetCheck(q, lim, period, budget, max, usage), lim, period, budget, max)
    ensures q[0].time <= BudgetCheck(q, lim, period, budget, max, usage)[0].time
  {
    OverrunTimes(q, lim, period, budget, max, usage);
    var (q1, left) := HandleOverrun(q, lim, period, budget, max, usage);
    var q2 := Charge(q, lim, period, budget, max, usage);
    if left > 0 && q1[0].time < lim.MaxRelease() {
      ChargePartKeepsQueue(q1, period, budget, max, left);
    }
    var r := EnsureMinBudget(q2, lim.minBudget, period, budget, max);
    MinBudgetTimes(q2, lim.minBudget, period, budget, max);
    HeadBeforeLast(r);
  }

  lemma {:induction false} MergeOverlappingKeepsQueue(q: seq<Refill>, period: nat, budget: nat, max: nat)
    requires 1 <= |q| <= max && Sum(q) == budget && Positive(q) && Ordered(q[1..])
    requires Last(q).time <= q[0].time + period
    ensures Queue(MergeOverlapping(q), period, budget, max)
    ensures MergeOverlapping(q)[0].time == q[0].time && MergeOverlapping(q)[0].amount >= q[0].amount
    decreases |q|
  {
    if HeadOverlapping(q) {
      var r := [Refill(q[0].time, q[1].amount + q[0].amount)] + q[2..];
      assert r[1..] == q[2..] == q[1..][1..];
      MergeOverlappingKeepsQueue(r, period, budget, max);
    } else {
      forall i, j | 0 <= i < j < |q|
        ensures End(q[i]) <= q[j].time
      {
        if i == 0 && j > 1 { assert End(q[1..][0]) <= q[1..][j - 1].time; }
        if i > 0 { assert End(q[1..][i - 1]) <= q[1..][j - 1].time; }
      }
    }
  }

  /** refill_unblock_check keeps the invariant, and afterwards nothing in the queue lies before now. */
  lemma UnblockCheckKeepsInv(q: seq<Refill>, lim: Limits, period: nat, budget: nat, max: nat, now: nat)
    requires Inv(q, lim, period, budget, max) && now < lim.MaxRelease()
    ensures Inv(UnblockCheck(q, now), lim, period, budget, max)
    ensures UnblockCheck(q, now)[0].time == if q[0].time <= now then now else q[0].time
  {
    if q[0].time <= now {
      var q1 := q[0 := Refill(now, q[0].amount)];
      assert q1[1..] == q[1..];
      MergeOverlappingKeepsQueue(q1, period, budget, max);
    }
  }

  lemma NewQueueInv(now: nat, lim: Limits, period: nat, budget: nat, max: nat)
    requires lim.Sane() && MIN_REFILLS <= max && lim.minBudget <= budget <= lim.maxPeriod
    requires now < lim.MaxRelease() && period <= lim.maxPeriod
    ensures period == 0 ==> RoundRobin(NewQueue(now, period, budget), lim, budget, max)
    ensures budget <= period ==> Inv(NewQueue(now, period, budget), lim, period, budget, max)
  {
    if period > 0 { HeadWithinSum(NewQueue(now, period, budget)); }
  }

  /** refill_update turns the head of any queue into a queue for the new parameters, with no refill before now. */
  lemma UpdateInv(q: seq<Refill>, lim: Limits, now: nat, period: nat, budget: nat, max: nat)
    requires q != [] && lim.minBudget <= q[0].amount && q[0].time <= lim.MaxRelease() + lim.maxPeriod
    requires now < lim.MaxRelease() && Parameters(lim, period, budget, max)
    ensures Inv(Update(q, now, period, budget), lim, period, budget, max)
    ensures now <= Update(q, now, period, budget)[0].time
  {
    var r := Update(q, now, period, budget);
    if |r| == 2 {
      assert r[1..] == [r[1]];
      HeadWithinSum([r[1]]);
    } else {
      HeadWithinSum(r);
    }
  }

  lemma UpdateRoundRobin(q: seq<Refill>, lim: Limits, now: nat, budget: nat, max: nat)
    requires q != [] && lim.minBudget <= q[0].amount && q[0].time <= lim.MaxRelease() + lim.maxPeriod
    requires now < lim.MaxRelease() && lim.Sane() && lim.minBudget <= budget <= lim.maxPeriod && MIN_REFILLS <= max
    ensures RoundRobin(Update(q, now, 0, budget), lim, budget, max)
  {
  }

  /** No time or end in the queue, even one period later, reaches the end of the 64-bit clock. */
  lemma NoWrap(q: seq<Refill>, lim: Limits, period: nat, budget: nat, max: nat, i: nat)
    requires Bounded(q, lim, period, budget, max) && i < |q|
    ensures End(q[i]) <= lim.MaxRelease() + 3 * lim.maxPeriod < WORD
    ensures End(q[i]) + period < WORD
  {
    AmountWithinSum(q, i);
    if i < |q| - 1 { assert End(q[i]) <= Last(q).time; }
  }

  lemma {:induction false} AmountWithinSum(q: seq<Refill>, i: nat)
    requires i < |q|
    ensures q[i].amount <= Sum(q)
  {
    if i > 0 { AmountWithinSum(q[1..], i - 1); }
  }

  // ------------------------------------------------------------------ incremental charging

  /** Charging the head in two parts, as preemption does, leaves the same queue as charging it once. */
  lemma ChargePartTwice(q: seq<Refill>, period: nat, budget: nat, max: nat, u: nat, v: nat)
    requires Queue(q, period, budget, max) && budget <= period && MIN_REFILLS <= max
    requires 0 < u && 0 < v && u + v < q[0].amount
    ensures v < ChargePart(q, period, max, u)[0].amount
    ensures ChargePart(ChargePart(q, period, max, u), period, max, v) == ChargePart(q, period, max, u + v)
  {
    HeadWithinSum(q);
    if |q| > 1 { assert End(q[0]) <= q[|q| - 1].time; }
  }

  /** Usage that leaves the head sufficient is taken from the head alone. */
  lemma SufficientCharge(q: seq<Refill>, lim: Limits, period: nat, budget: nat, max: nat, usage: nat)
    requires Inv(q, lim, period, budget, max) && q[0].time < lim.MaxRelease()
    requires 0 < usage && usage + lim.minBudget <= q[0].amount
    ensures BudgetCheck(q, lim, period, budget, max, usage) == ChargePart(q, period, max, usage)
  {
    ChargePartKeepsQueue(q, period, budget, max, usage);
  }

  // ------------------------------------------------------------------ what unblocking joins

  /** The first k refills are used one after the other from the time now on, before the next one is due. */
  predicate Reached(q: seq<Refill>, now: nat, k: nat) {
    && 1 <= k <= |q|
    && (forall j | 0 < j < k :: q[j].time <= now + Sum(q[..j]))
    && (k < |q| ==> now + Sum(q[..k]) < q[k].time)
  }

  lemma {:induction false} MergeJoinsReached(q: seq<Refill>, done: seq<Refill>, rest: seq<Refill>, now: nat)
    returns (k: nat)
    requires done != [] && q == done + rest && forall j | 0 < j < |done| :: q[j].time <= now + Sum(q[..j])
    ensures Reached(q, now, k)
    ensures MergeOverlapping([Refill(now, Sum(done))] + rest) == [Refill(now, Sum(q[..k]))] + q[k..]
    decreases |rest|
  {
    var m := [Refill(now, Sum(done))] + rest;
    assert q[..|done|] == done && q[|done|..] == rest;
    if HeadOverlapping(m) {
      assert m[1] == rest[0] == q[|done|];
      SumConcat(done, [rest[0]]);
      assert Sum([rest[0]]) == rest[0].amount + Sum([]);
      assert [Refill(m[0].time, m[1].amount + m[0].amount)] + m[2..]
             == [Refill(now, Sum(done + [rest[0]]))] + rest[1..];
      assert q == (done + [rest[0]]) + rest[1..];
      k := MergeJoinsReached(q, done + [rest[0]], rest[1..], now);
    } else {
      k := |done|;
    }
  }

  /** Unblocking moves a ready head to now and joins exactly the refills that it reaches; the others stay. */
  lemma UnblockJoins(q: seq<Refill>, now: nat)
    requires q != []
    ensures now < q[0].time ==> UnblockCheck(q, now) == q
    ensures q[0].time <= now ==>
              exists k: nat :: Reached(q, now, k) && UnblockCheck(q, now) == [Refill(now, Sum(q[..k]))] + q[k..]
  {
    if q[0].time <= now {
      assert q == [q[0]] + q[1..] && [q[0]][1..] == [];
      assert Sum([q[0]]) == q[0].amount + Sum([]);
      assert q[0 := Refill(now, q[0].amount)] == [Refill(now, q[0].amount)] + q[1..];
      var k := MergeJoinsReached(q, [q[0]], q[1..], now);
    }
  }

  // ------------------------------------------------------------------ round robin

  function Total(usages: seq<nat>): nat {
    if usages == [] then 0 else usages[0] + Total(usages[1..])
  }

  function CommitAll(q: seq<Refill>, usages: seq<nat>): (r: seq<Refill>)
    requires |q| == MIN_REFILLS && Total(usages) <= q[0].amount
    ensures |r| == MIN_REFILLS
    decreases |usages|
  {
    if usages == [] then q else CommitAll(CommitRoundRobin(q, usages[0]), usages[1..])
  }

  /** However a slice is used up, what is billed goes from the head to the tail, and the next slice is whole again. */
  lemma {:induction false} SliceIsWhole(q: seq<Refill>, usages: seq<nat>)
    requires |q| == MIN_REFILLS && Total(usages) <= q[0].amount
    ensures var r, used := CommitAll(q, usages), Total(usages);
            && r == [Refill(q[0].time, q[0].amount - used), Refill(q[1].time, q[1].amount + used)]
            && ChargeRoundRobin(r) == [Refill(q[0].time, q[0].amount + q[1].amount), Refill(q[1].time, 0)]
    decreases |usages|
  {
    if usages == [] {
      assert q == [q[0], q[1]];
    } else {
      SliceIsWhole(CommitRoundRobin(q, usages[0]), usages[1..]);
    }
  }

  // ------------------------------------------------------------------ refills below the minimum budget

  /** Every refill holds the minimum budget, not just the head. */
  predicate AllSufficient(q: seq<Refill>, minBudget: nat) {
    forall i | 0 <= i < |q| :: minBudget <= q[i].amount
  }

  /** Charging whole heads never splits a refill. */
  lemma {:induction false} OverrunSufficient(q: seq<Refill>, lim: Limits, period: nat, budget: nat, max: nat,
                                             usage: nat)
    requires Queue(q, period, budget, max) && budget <= period && MIN_REFILLS <= max && AllSufficient(q, lim.minBudget)
    ensures AllSufficient(HandleOverrun(q, lim, period, budget, max, usage).0, lim.minBudget)
    decreases usage
  {
    if Overrun(q, lim, usage) {
      ChargeHeadKeepsQueue(q, period, budget, max);
      OverrunSufficient(ChargeHead(q, period, max), lim, period, budget, max, usage - q[0].amount);
    }
  }

  /** The tail that a partial charge adds is too small unless it joins another refill. */
  predicate SplitsSufficient(q: seq<Refill>, minBudget: nat, period: nat, max: nat, usage: nat)
    requires q != []
  {
    || minBudget <= usage
    || |q| == max
    || q[0].time + period <= End(Last(q))
    || (|q| == 1 && q[0].amount < usage + minBudget)
  }

  /** A partial charge adds a tail of its own, or leaves every later refill as large as it was. */
  lemma PartShape(q: seq<Refill>, period: nat, max: nat, usage: nat)
    requires q != [] && 0 < usage < q[0].amount
    ensures var r, split := ChargePart(q, period, max, usage), |q| < max && End(Last(q)) < q[0].time + period;
            && |r| == (if split then |q| + 1 else |q|)
            && (split ==> r[|q|].amount == usage)
            && r[0].amount == (if !split && |q| == 1 then q[0].amount else q[0].amount - usage)
            && forall i | 0 < i < |q| :: q[i].amount <= r[i].amount
  {
  }

  /** Only the head is topped up, and one merge is enough if that holds the minimum budget. */
  lemma ToppedUp(r: seq<Refill>, minBudget: nat, period: nat, budget: nat, max: nat)
    requires Queue(r, period, budget, max) && minBudget <= budget
    requires r[0].amount < minBudget ==> |r| >= 2 && minBudget <= r[0].amount + r[1].amount
    ensures AllSufficient(EnsureMinBudget(r, minBudget, period, budget, max), minBudget)
            <==> forall i | (if r[0].amount < minBudget then 2 else 1) <= i < |r| :: minBudget <= r[i].amount
  {
    hide Sum, Positive, Ordered;
    if r[0].amount < minBudget {
      MergeHeadKeepsQueue(r, minBudget, period, budget, max);
      var m := MergeHead(r);
      hide MergeHead;
      assert EnsureMinBudget(r, minBudget, period, budget, max) == m;
      forall i | 2 <= i < |r| ensures m[i - 1] == r[i] {}
      forall i | 1 <= i < |m| ensures m[i] == r[i + 1] {}
    } else {
      assert EnsureMinBudget(r, minBudget, period, budget, max) == r;
    }
  }

  lemma PartSufficient(q: seq<Refill>, minBudget: nat, period: nat, budget: nat, max: nat, usage: nat)
    requires Queue(q, period, budget, max) && minBudget <= budget <= period && MIN_REFILLS <= max
    requires AllSufficient(q, minBudget) && 0 < usage < q[0].amount
    ensures Queue(ChargePart(q, period, max, usage), period, budget, max)
    ensures AllSufficient(EnsureMinBudget(ChargePart(q, period, max, usage), minBudget, period, budget, max), minBudget)
            <==> SplitsSufficient(q, minBudget, period, max, usage)
  {
    assert |q| <= max;
    ChargePartKeepsQueue(q, period, budget, max, usage);
    PartShape(q, period, max, usage);
    hide Queue, ChargePart, EnsureMinBudget;
    ToppedUp(ChargePart(q, period, max, usage), minBudget, period, budget, max);
  }

  /**
   * Exactly when charging keeps every refill at the minimum budget: what is left of the usage after the overrun is
   * nothing, or cannot be charged, or makes a sufficient tail, or joins a refill that is there.
   */
  lemma BudgetCheckSufficient(q: seq<Refill>, lim: Limits, period: nat, budget: nat, max: nat, usage: nat)
    requires Inv(q, lim, period, budget, max) && AllSufficient(q, lim.minBudget)
    ensures var (r, left) := HandleOverrun(q, lim, period, budget, max, usage);
            AllSufficient(BudgetCheck(q, lim, period, budget, max, usage), lim.minBudget)
            <==> left == 0 || lim.MaxRelease() <= r[0].time || SplitsSufficient(r, lim.minBudget, period, max, left)
  {
    var (r, left) := HandleOverrun(q, lim, period, budget, max, usage);
    OverrunSufficient(q, lim, period, budget, max, usage);
    if left > 0 && r[0].time < lim.MaxRelease() {
      PartSufficient(r, lim.minBudget, period, budget, max, left);
    }
  }

  /** In particular for a thread that leaves its head refill sufficient. */
  lemma SmallChargeSufficient(q: seq<Refill>, lim: Limits, period: nat, budget: nat, max: nat, usage: nat)
    requires Inv(q, lim, period, budget, max) && AllSufficient(q, lim.minBudget) && q[0].time < lim.MaxRelease()
    requires 0 < usage && usage + lim.minBudget <= q[0].amount
    ensures AllSufficient(BudgetCheck(q, lim, period, budget, max, usage), lim.minBudget)
            <==> lim.minBudget <= usage || |q| == max || q[0].time + period <= End(Last(q))
  {
    BudgetCheckSufficient(q, lim, period, budget, max, usage);
  }

  /** One tick used of a fresh budget becomes a refill of one tick. */
  lemma OneTickRefill()
    ensures var lim, q := Limits(3, 20), [Refill(0, 10)];
            && Inv(q, lim, 20, 10, 2) && AllSufficient(q, lim.minBudget)
            && BudgetCheck(q, lim, 20, 10, 2, 1) == [Refill(1, 9), Refill(20, 1)]
            && !AllSufficient([Refill(1, 9), Refill(20, 1)], lim.minBudget)
  {
    var lim, q, r := Limits(3, 20), [Refill(0, 10)], [Refill(1, 9), Refill(20, 1)];
    assert Sum(q) == 10 + Sum([]);
    SufficientCharge(q, lim, 20, 10, 2, 1);
    assert r[1].amount < lim.minBudget;
  }

  /**
   * Reconfiguring keeps every refill sufficient exactly if the head takes the whole budget or leaves a sufficient rest.
   */
  lemma UpdateSufficient(q: seq<Refill>, lim: Limits, now: nat, period: nat, budget: nat)
    requires q != [] && lim.minBudget <= q[0].amount && lim.minBudget <= budget && 0 < period
    ensures AllSufficient(Update(q, now, period, budget), lim.minBudget)
            <==> budget <= q[0].amount || q[0].amount + lim.minBudget <= budget
  {
    var r := Update(q, now, period, budget);
    if |r| > 1 { assert r[1].amount == budget - q[0].amount; }
  }

  /** Unblocking only joins refills. */
  lemma {:induction false} MergeOverlappingSufficient(q: seq<Refill>, minBudget: nat)
    requires q != [] && AllSufficient(q, minBudget)
    ensures AllSufficient(MergeOverlapping(q), minBudget)
    decreases |q|
  {
    if HeadOverlapping(q) {
      MergeOverlappingSufficient([Refill(q[0].time, q[1].amount + q[0].amount)] + q[2..], minBudget);
    }
  }

  lemma UnblockSufficient(q: seq<Refill>, now: nat, minBudget: nat)
    requires q != [] && AllSufficient(q, minBudget)
    ensures AllSufficient(UnblockCheck(q, now), minBudget)
  {
    if q[0].time <= now { MergeOverlappingSufficient(q[0 := Refill(now, q[0].amount)], minBudget); }
  }

  /** Committing time in two steps is the same as committing it at once. */
  lemma CommitTwice(q: seq<Refill>, lim: Limits, period: nat, budget: nat, max: nat, u: nat, v: nat)
    requires Inv(q, lim, period, budget, max) && q[0].time + u < lim.MaxRelease()
    requires 0 < u && 0 < v && u + v + lim.minBudget <= q[0].amount
    ensures var once := BudgetCheck(q, lim, period, budget, max, u);
            && Inv(once, lim, period, budget, max)
            && BudgetCheck(once, lim, period, budget, max, v) == BudgetCheck(q, lim, period, budget, max, u + v)
  {
    hide Ordered, Positive, Sum, BudgetCheck, ChargePart;
    var once := BudgetCheck(q, lim, period, budget, max, u);
    BudgetCheckKeepsInv(q, lim, period, budget, max, u);
    SufficientCharge(q, lim, period, budget, max, u);
    ChargePartKeepsQueue(q, period, budget, max, u);
    SufficientCharge(q, lim, period, budget, max, u + v);
    SufficientCharge(once, lim, period, budget, max, v);
    ChargePartTwice(q, period, budget, max, u, v);
  }
}
