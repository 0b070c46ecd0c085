/**
 * The refill queue as the kernel stores it: a circular buffer inside the scheduling context, 64-bit
 * wrapping arithmetic, and loops. Every operation refines the sequence operation of module Refills.
 */
module RefillRing {
  import opened Words
  import R = Refills
  import opened Refills

  // ------------------------------------------------------------------ 64-bit arithmetic

  function Add(a: nat, b: nat): (r: nat)
    ensures r < WORD
    ensures a + b < WORD ==> r == a + b
  {
    (a + b) % WORD
  }

  function Sub(a: nat, b: nat): (r: nat)
    ensures r < WORD
    ensures 0 <= a - b < WORD ==> r == a - b
  {
    (a - b) % WORD
  }

  // ------------------------------------------------------------------ the circular buffer as a value

  function Next(i: nat, max: nat): nat {
    if i == max - 1 then 0 else i + 1
  }

  function SizeOf(head: nat, tail: nat, max: nat): int {
    if head <= tail then tail - head + 1 else tail + 1 + (max - head)
  }

  function At(head: nat, max: nat, i: nat): int {
    if head + i < max then head + i else head + i - max
  }

  predicate Shape(buf: seq<Refill>, head: nat, tail: nat, max: nat) {
    head < max && tail < max && max <= |buf|
  }

  /** The refills from head to tail. */
  function View(buf: seq<Refill>, head: nat, tail: nat, max: nat): (q: seq<Refill>)
    requires Shape(buf, head, tail, max)
    ensures 1 <= |q| == SizeOf(head, tail, max) <= max
    ensures q[0] == buf[head] && Last(q) == buf[tail]
    ensures |q| == 1 <==> head == tail
  {
    seq(SizeOf(head, tail, max),
        i requires 0 <= i < SizeOf(head, tail, max) && Shape(buf, head, tail, max) => buf[At(head, max, i)])
  }

  lemma ViewPop(buf: seq<Refill>, head: nat, tail: nat, max: nat)
    requires Shape(buf, head, tail, max) && head != tail
    ensures Shape(buf, Next(head, max), tail, max)
    ensures View(buf, Next(head, max), tail, max) == View(buf, head, tail, max)[1..]
  {
  }

  lemma ViewAdd(buf: seq<Refill>, head: nat, tail: nat, max: nat, r: Refill)
    requires Shape(buf, head, tail, max) && SizeOf(head, tail, max) < max
    ensures Shape(buf[Next(tail, max) := r], head, Next(tail, max), max)
    ensures View(buf[Next(tail, max) := r], head, Next(tail, max), max) == View(buf, head, tail, max) + [r]
  {
  }

  lemma ViewSetHead(buf: seq<Refill>, head: nat, tail: nat, max: nat, r: Refill)
    requires Shape(buf, head, tail, max)
    ensures View(buf[head := r], head, tail, max) == View(buf, head, tail, max)[0 := r]
  {
  }

  lemma ViewSetTail(buf: seq<Refill>, head: nat, tail: nat, max: nat, r: Refill)
    requires Shape(buf, head, tail, max)
    ensures var q := View(buf, head, tail, max);
            View(buf[tail := r], head, tail, max) == q[|q| - 1 := r]
  {
  }

  // ------------------------------------------------------------------ scheduling contexts

  class SchedulingContext {
    const limits: Limits
    const refills: array<Refill>
    var head: nat
    var tail: nat
    var max: nat
    var period: nat
    var consumed: nat
    ghost var budget: nat

    /** A scheduling context as retype leaves it: room for refills, not yet configured. */
    constructor (limits: Limits, capacity: nat)
      ensures this.limits == limits && refills.Length == capacity && fresh(refills)
      ensures max == 0 && Valid()
    {
      this.limits := limits;
      refills := new Refill[capacity](_ => Refill(0, 0));
      head, tail, max, period, consumed, budget := 0, 0, 0, 0, 0, 0;
    }

    ghost predicate WellShaped()
      reads this, refills
    {
      Shape(refills[..], head, tail, max)
    }

    ghost function Contents(): seq<Refill>
      requires WellShaped()
      reads this, refills
    {
      View(refills[..], head, tail, max)
    }

    /** Unconfigured, round robin, or sporadic with the refill invariant. */
    ghost predicate Valid()
      reads this, refills
    {
      max > 0 ==>
        && WellShaped()
        && if period == 0 then RoundRobin(Contents(), limits, budget, max)
           else Inv(Contents(), limits, period, budget, max)
    }

    // ---------------------------------------------------------------- queue primitives

    method PopHead() returns (r: Refill)
      requires WellShaped() && head != tail
      modifies `head
      ensures WellShaped()
      ensures r == old(Contents())[0] && Contents() == old(Contents())[1..]
    {
      ViewPop(refills[..], head, tail, max);
      r := refills[head];
      head := Next(head, max);
    }

    method AddTail(r: Refill)
      requires WellShaped() && |Contents()| < max
      modifies `tail, refills
      ensures WellShaped()
      ensures Contents() == old(Contents()) + [r]
    {
      ViewAdd(refills[..], head, tail, max, r);
      tail := Next(tail, max);
      refills[tail] := r;
      assert refills[..] == old(refills[..])[tail := r];
    }

    method SetHead(r: Refill)
      requires WellShaped()
      modifies refills
      ensures Contents() == old(Contents())[0 := r]
    {
      ViewSetHead(refills[..], head, tail, max, r);
      refills[head] := r;
      assert refills[..] == old(refills[..])[head := r];
    }

    method SetTail(r: Refill)
      requires WellShaped()
      modifies refills
      ensures Contents() == old(Contents())[|old(Contents())| - 1 := r]
    {
      ViewSetTail(refills[..], head, tail, max, r);
      refills[tail] := r;
      assert refills[..] == old(refills[..])[tail := r];
    }

    // ---------------------------------------------------------------- charging

    method ScheduleUsed(used: Refill)
      requires WellShaped()
      requires End(Last(Contents())) < WORD && used.time < WORD && Last(Contents()).amount + used.amount < WORD
      modifies `tail, refills
      ensures WellShaped()
      ensures Contents() == R.ScheduleUsed(old(Contents()), max, used)
    {
      hide View, Add, Sub;
      var last := refills[tail];
      if Add(last.time, last.amount) >= used.time {
        SetTail(Refill(last.time, Add(last.amount, used.amount)));
      } else if SizeOf(head, tail, max) != max {
        AddTail(used);
      } else {
        SetTail(Refill(Sub(used.time, last.amount), Add(last.amount, used.amount)));
      }
    }

    method ChargeEntireHead(usage: nat) returns (left: nat)
      requires WellShaped() && Bounded(Contents(), limits, period, budget, max)
      requires Overrun(Contents(), limits, usage) && usage < WORD
      modifies `head, `tail, refills
      ensures WellShaped() && Bounded(Contents(), limits, period, budget, max)
      ensures Contents() == ChargeHead(old(Contents()), period, max)
      ensures left == usage - old(Contents())[0].amount
      ensures Last(Contents()).time < limits.MaxRelease() + period
    {
      hide View, Add, Sub, R.ScheduleUsed, Ordered, Positive, Sum;
      ghost var q := Contents();
      ChargeHeadKeepsBounded(q, limits, period, budget, max);
      NoWrap(q, limits, period, budget, max, 0);
      NoWrap(q, limits, period, budget, max, |q| - 1);
      var first := refills[head];
      if head == tail {
        SetHead(Refill(Add(first.time, period), first.amount));
      } else {
        TwoAmountsWithinSum(q);
        var old_head := PopHead();
        ScheduleUsed(Refill(Add(old_head.time, period), old_head.amount));
      }
      assert Contents() == ChargeHead(q, period, max);
      left := Sub(usage, first.amount);
    }

    method HandleOverrun(usage: nat) returns (left: nat)
      requires WellShaped() && Bounded(Contents(), limits, period, budget, max) && usage < WORD
      modifies `head, `tail, refills
      ensures WellShaped() && Bounded(Contents(), limits, period, budget, max)
      ensures (Contents(), left) == R.HandleOverrun(old(Contents()), limits, period, budget, max, usage)
      ensures Contents() == old(Contents()) || Last(Contents()).time < limits.MaxRelease() + period
    {
      hide View, Queue, ChargeHead;
      ghost var q := Contents();
      left := usage;
      while refills[head].amount <= left && refills[head].time < limits.MaxRelease()
        invariant WellShaped() && Bounded(Contents(), limits, period, budget, max) && left <= usage
        invariant R.HandleOverrun(Contents(), limits, period, budget, max, left)
               == R.HandleOverrun(q, limits, period, budget, max, usage)
        invariant Contents() == q || Last(Contents()).time < limits.MaxRelease() + period
        decreases left
      {
        HeadIsPositive(Contents(), period, budget, max);
        left := ChargeEntireHead(left);
      }
    }

    method MergeNonoverlappingHead()
      requires WellShaped() && Bounded(Contents(), limits, period, budget, max)
      requires Contents()[0].amount < limits.minBudget && Last(Contents()).time < limits.MaxRelease() + period
      modifies `head, refills
      ensures WellShaped() && Bounded(Contents(), limits, period, budget, max)
      ensures |old(Contents())| >= 2 && old(Contents())[0].amount <= old(Contents())[1].time
      ensures Contents() == MergeHead(old(Contents()))
      ensures Last(Contents()).time < limits.MaxRelease() + period
    {
      hide View, Ordered, Positive, Sum, Add, Sub;
      ghost var q := Contents();
      MergeHeadKeepsBounded(q, limits, period, budget, max);
      NoWrap(q, limits, period, budget, max, 1);
      FirstTwoWithinSum(q);
      var first := PopHead();
      var next := refills[head];
      SetHead(Refill(Sub(next.time, first.amount), Add(next.amount, first.amount)));
      assert Contents() == MergeHead(q);
    }

    /** refill_budget_check: charges usage for a context that is not round robin. */
    method BudgetCheck(usage: nat)
      requires WellShaped() && Inv(Contents(), limits, period, budget, max) && usage < WORD
      modifies `head, `tail, refills
      ensures WellShaped() && Inv(Contents(), limits, period, budget, max)
      ensures Contents() == R.BudgetCheck(old(Contents()), limits, period, budget, max, usage)
    {
      hide View, Queue, R.HandleOverrun, R.ScheduleUsed, Add, Sub;
      ghost var q := Contents();
      BudgetCheckKeepsInv(q, limits, period, budget, max, usage);
      var left := HandleOverrun(usage);
      ChargeRest(left);
      ghost var q2 := Contents();
      while refills[head].amount < limits.minBudget
        invariant WellShaped() && Bounded(Contents(), limits, period, budget, max)
        invariant limits.minBudget <= Contents()[0].amount || Last(Contents()).time < limits.MaxRelease() + period
        invariant EnsureMinBudget(Contents(), limits.minBudget, period, budget, max)
               == EnsureMinBudget(q2, limits.minBudget, period, budget, max)
        decreases |Contents()|
      {
        MergeNonoverlappingHead();
      }
    }

    /** The partial charge in the middle of refill_budget_check. */
    method ChargeRest(usage: nat)
      requires WellShaped() && Bounded(Contents(), limits, period, budget, max)
      requires !Overrun(Contents(), limits, usage)
      modifies `tail, refills
      ensures WellShaped() && Bounded(Contents(), limits, period, budget, max)
      ensures var q := old(Contents());
              if usage > 0 && q[0].time < limits.MaxRelease()
              then Contents() == ChargePart(q, period, max, usage)
                   && Last(Contents()).time < limits.MaxRelease() + period
              else Contents() == q
    {
      hide View, R.ScheduleUsed, Ordered, Positive, Sum, Add, Sub;
      ghost var q := Contents();
      var first := refills[head];
      if usage > 0 && first.time < limits.MaxRelease() {
        ChargePartKeepsBounded(q, limits, period, budget, max, usage);
        NoWrap(q, limits, period, budget, max, 0);
        NoWrap(q, limits, period, budget, max, |q| - 1);
        if |q| > 1 { TwoAmountsWithinSum(q); }
        SetHead(Refill(Add(first.time, usage), Sub(first.amount, usage)));
        ScheduleUsed(Refill(Add(first.time, period), usage));
        assert Contents() == ChargePart(q, period, max, usage);
      }
    }

    // ---------------------------------------------------------------- unblocking

    method MergeOverlappingHead()
      requires WellShaped() && head != tail && Contents()[0].amount + Contents()[1].amount < WORD
      modifies `head, refills
      ensures WellShaped()
      ensures var q := old(Contents());
              Contents() == [Refill(q[0].time, q[1].amount + q[0].amount)] + q[2..]
    {
      hide View, Add;
      var first := PopHead();
      SetHead(Refill(first.time, Add(refills[head].amount, first.amount)));
    }

    /** refill_unblock_check; the result says whether the timer has to be reprogrammed. */
    method UnblockCheck(now: nat) returns (reprogram: bool)
      requires Valid() && max > 0 && now < limits.MaxRelease()
      modifies `head, refills
      ensures Valid()
      ensures Contents() == if period == 0 then old(Contents()) else R.UnblockCheck(old(Contents()), now)
      ensures reprogram <==> period != 0 && old(Contents())[0].time <= now
    {
      hide View, Ordered, Positive, Sum, Add;
      reprogram := period != 0 && refills[head].time <= now;
      if reprogram {
        ghost var q := Contents();
        UnblockCheckKeepsInv(q, limits, period, budget, max, now);
        SetHead(Refill(now, refills[head].amount));
        ghost var q1 := Contents();
        assert q1[1..] == q[1..];
        HeadChangeKeepsSum(q, q1);
        var overlapping := HeadOverlaps();
        while overlapping
          invariant WellShaped() && Contents()[0].time == now && Sum(Contents()) == budget
          invariant overlapping == HeadOverlapping(Contents())
          invariant MergeOverlapping(Contents()) == MergeOverlapping(q1)
          decreases |Contents()|
        {
          FirstTwoWithinSum(Contents());
          MergeKeepsSum(Contents());
          MergeOverlappingHead();
          overlapping := HeadOverlaps();
        }
      }
    }

    /** refill_head_overlapping */
    method HeadOverlaps() returns (overlapping: bool)
      requires WellShaped() && Contents()[0].time + Sum(Contents()) < WORD
      ensures overlapping == HeadOverlapping(Contents())
    {
      HeadWithinSum(Contents());
      if head != tail {
        ViewPop(refills[..], head, tail, max);
        overlapping := refills[Next(head, max)].time <= Add(refills[head].time, refills[head].amount);
      } else {
        overlapping := false;
      }
    }

    // ---------------------------------------------------------------- configuration

    method MaybeAddEmptyTail()
      requires WellShaped() && head == tail && MIN_REFILLS <= max
      modifies `tail, refills
      ensures WellShaped()
      ensures Contents() == old(Contents()) + EmptyTail(old(Contents())[0], period)
    {
      if period == 0 {
        AddTail(Refill(refills[head].time, 0));
      }
    }

    /** refill_new: the whole budget is available from now on. */
    method New(maxRefills: nat, newBudget: nat, newPeriod: nat, now: nat)
      requires limits.Sane() && MIN_REFILLS <= maxRefills <= refills.Length && now < limits.MaxRelease()
      requires limits.minBudget <= newBudget <= limits.maxPeriod
      requires newPeriod == 0 || newBudget <= newPeriod <= limits.maxPeriod
      modifies this, refills
      ensures Valid() && max == maxRefills && period == newPeriod && budget == newBudget
      ensures Contents() == NewQueue(now, newPeriod, newBudget) && consumed == old(consumed)
    {
      hide View, Inv, RoundRobin;
      period, head, tail, max, budget := newPeriod, 0, 0, maxRefills, newBudget;
      SetHead(Refill(refills[head].time, newBudget));
      SetHead(Refill(now, refills[head].amount));
      MaybeAddEmptyTail();
      assert Contents() == NewQueue(now, newPeriod, newBudget);
      NewQueueInv(now, limits, period, budget, max);
    }

    /** refill_update: keeps what is left in the head, and schedules the rest a new period later. */
    method Update(newPeriod: nat, newBudget: nat, maxRefills: nat, now: nat)
      requires Valid() && max > 0
      requires MIN_REFILLS <= maxRefills <= refills.Length && now < limits.MaxRelease()
      requires limits.minBudget <= newBudget <= limits.maxPeriod
      requires newPeriod == 0 || newBudget <= newPeriod <= limits.maxPeriod
      modifies this, refills
      ensures Valid() && max == maxRefills && period == newPeriod && budget == newBudget
      ensures Contents() == R.Update(old(Contents()), now, newPeriod, newBudget) && consumed == old(consumed)
    {
      hide View, Ordered, Positive, Sum, Queue, Add, Sub;
      ghost var q := Contents();
      if newPeriod == 0 {
        UpdateRoundRobin(q, limits, now, newBudget, maxRefills);
      } else {
        UpdateInv(q, limits, now, newPeriod, newBudget, maxRefills);
      }
      refills[0] := refills[head];
      head, tail, max, period, budget := 0, 0, maxRefills, newPeriod, newBudget;
      if refills[head].time <= now {
        SetHead(Refill(now, refills[head].amount));
      }
      if refills[head].amount >= newBudget {
        SetHead(Refill(refills[head].time, newBudget));
        MaybeAddEmptyTail();
      } else {
        AddTail(Refill(Add(refills[head].time, newPeriod), Sub(newBudget, refills[head].amount)));
      }
      assert Contents() == R.Update(q, now, newPeriod, newBudget);
    }

    // ---------------------------------------------------------------- billing

    /** commitTime on the current scheduling context, whose head has to be ready and sufficient. */
    method CommitTime(usage: nat, now: nat)
      requires Valid() && max > 0 && now < limits.MaxRelease()
      requires Contents()[0].time <= now && usage + limits.minBudget <= Contents()[0].amount
      modifies this, refills
      ensures Valid() && max == old(max) && period == old(period) && budget == old(budget)
      ensures consumed == Add(old(consumed), usage)
      ensures usage == 0 ==> Contents() == old(Contents())
      ensures usage > 0 && period == 0 ==> Contents() == CommitRoundRobin(old(Contents()), usage)
      ensures usage > 0 && period != 0 ==> Contents() == ChargePart(old(Contents()), period, max, usage)
      ensures limits.minBudget <= Contents()[0].amount
      ensures period == 0 || old(Contents())[0].time + usage <= now ==> Contents()[0].time <= now
    {
      hide View, Queue, R.ScheduleUsed, R.BudgetCheck, Add, Sub;
      if usage > 0 {
        ghost var q := Contents();
        if period == 0 {
          SetHead(Refill(refills[head].time, Sub(refills[head].amount, usage)));
          SetTail(Refill(refills[tail].time, Add(refills[tail].amount, usage)));
        } else {
          SufficientCharge(q, limits, period, budget, max, usage);
          ChargePartKeepsQueue(q, period, budget, max, usage);
          AmountFitsWord(q, limits, period, budget, max);
          BudgetCheck(usage);
        }
      }
      consumed := Add(consumed, usage);
    }

    /** The billing part of chargeBudget: usage may exceed the head. */
    method ChargeBudget(usage: nat)
      requires Valid() && max > 0 && usage < WORD
      modifies this, refills
      ensures Valid() && max == old(max) && period == old(period) && budget == old(budget)
      ensures consumed == Add(old(consumed), usage)
      ensures Contents() == if period == 0 then ChargeRoundRobin(old(Contents()))
                            else R.BudgetCheck(old(Contents()), limits, period, budget, max, usage)
      ensures limits.minBudget <= Contents()[0].amount
    {
      hide View, Queue, R.BudgetCheck, Add;
      if period == 0 {
        var total := Add(refills[head].amount, refills[tail].amount);
        SetHead(Refill(refills[head].time, total));
        SetTail(Refill(refills[tail].time, 0));
      } else {
        BudgetCheck(usage);
      }
      consumed := Add(consumed, usage);
    }

    // ---------------------------------------------------------------- the kernel's own sanity checks

    /** refill_sum */
    method RefillSum() returns (sum: nat)
      requires WellShaped() && Sum(Contents()) < WORD
      ensures sum == Sum(Contents())
    {
      ghost var q := Contents();
      sum := refills[head].amount;
      var current := head;
      ghost var i := 0;
      assert q[..1] == [q[0]];
      HeadWithinSum([q[0]]);
      while current != tail
        invariant i < |q| && current == At(head, max, i)
        invariant sum == Sum(q[..i + 1])
        decreases |q| - i
      {
        current := Next(current, max);
        i := i + 1;
        assert q[..i + 1] == q[..i] + [q[i]];
        SumConcat(q[..i], [q[i]]);
        HeadWithinSum([q[i]]);
        assert q == q[..i + 1] + q[i + 1..];
        SumConcat(q[..i + 1], q[i + 1..]);
        sum := Add(sum, refills[current].amount);
      }
      assert q[..i + 1] == q;
    }
  }

  lemma TwoAmountsWithinSum(q: seq<Refill>)
    requires |q| > 1
    ensures q[0].amount + Last(q).amount <= Sum(q)
  {
    AmountWithinSum(q[1..], |q| - 2);
  }

  lemma FirstTwoWithinSum(q: seq<Refill>)
    requires |q| > 1
    ensures q[0].amount + q[1].amount <= Sum(q)
  {
    AmountWithinSum(q[1..], 0);
  }

  lemma HeadIsPositive(q: seq<Refill>, period: nat, budget: nat, max: nat)
    requires Queue(q, period, budget, max)
    ensures q != [] && q[0].amount > 0
  {
  }

  lemma HeadChangeKeepsSum(q: seq<Refill>, r: seq<Refill>)
    requires q != [] && r != [] && q[1..] == r[1..] && q[0].amount == r[0].amount
    ensures Sum(q) == Sum(r)
  {
  }

  lemma MergeKeepsSum(q: seq<Refill>)
    requires |q| > 1
    ensures Sum([Refill(q[0].time, q[1].amount + q[0].amount)] + q[2..]) == Sum(q)
  {
    assert q[1..][1..] == q[2..];
  }

  lemma AmountFitsWord(q: seq<Refill>, lim: Limits, period: nat, budget: nat, max: nat)
    requires Bounded(q, lim, period, budget, max)
    ensures q[0].amount < WORD
  {
    HeadWithinSum(q);
  }
}
