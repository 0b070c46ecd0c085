/**
 * How much budget a refill queue has made available by a given time, and what the queue
 * operations do to it: no operation brings budget forward, charging postpones by a period,
 * and so no run of operations uses more than one budget per period.
 */
module RefillCurves {
  import opened Arith
  import opened Refills

  /** Elapsed time clamped to [0, amount]. */
  function Ramp(elapsed: int, amount: nat): nat {
    if elapsed <= 0 then 0 else if elapsed < amount then elapsed else amount
  }

  /** S(t): the budget of q that has become available by time t. */
  function Supply(q: seq<Refill>, t: int): nat {
    if q == [] then 0 else Ramp(t - q[0].time, q[0].amount) + Supply(q[1..], t)
  }

  /** No budget of q2 is available earlier than the same amount of q1. */
  ghost predicate NoEarlier(q1: seq<Refill>, q2: seq<Refill>) {
    forall t: int :: Supply(q2, t) <= Supply(q1, t)
  }

  /** q2 is no earlier than q1 with `amount` of its units from time `from` on postponed by exactly one period. */
  ghost predicate Postponed(q1: seq<Refill>, q2: seq<Refill>, period: nat, from: nat, amount: nat) {
    forall t: int :: Supply(q2, t) <= Supply(q1, t) - Ramp(t - from, amount) + Ramp(t - from - period, amount)
  }

  // ------------------------------------------------------------------ supply of sequences

  lemma {:induction false} SupplyConcat(a: seq<Refill>, b: seq<Refill>, t: int)
    ensures Supply(a + b, t) == Supply(a, t) + Supply(b, t)
  {
    if a == [] {
      assert a + b == b;
    } else {
      assert (a + b)[1..] == a[1..] + b;
      SupplyConcat(a[1..], b, t);
    }
  }

  lemma SupplyLast(q: seq<Refill>, t: int)
    requires q != []
    ensures Supply(q, t) == Supply(q[..|q| - 1], t) + Ramp(t - Last(q).time, Last(q).amount)
  {
    assert q == q[..|q| - 1] + [Last(q)];
    SupplyConcat(q[..|q| - 1], [Last(q)], t);
  }

  lemma {:induction false} SupplyAtMostSum(q: seq<Refill>, t: int)
    ensures Supply(q, t) <= Sum(q)
  {
    if q != [] { SupplyAtMostSum(q[1..], t); }
  }

  lemma {:induction false} NothingBeforeStart(q: seq<Refill>, start: int, t: int)
    requires forall i :: 0 <= i < |q| ==> start <= q[i].time
    requires t <= start
    ensures Supply(q, t) == 0
  {
    if q != [] { NothingBeforeStart(q[1..], start, t); }
  }

  // ------------------------------------------------------------------ one operation

  lemma ScheduleUsedSupply(q: seq<Refill>, max: nat, used: Refill, t: int)
    requires q != [] && Last(q).time <= used.time
    ensures Supply(ScheduleUsed(q, max, used), t) <= Supply(q, t) + Ramp(t - used.time, used.amount)
    ensures |q| < max ==> Supply(q, t) <= Supply(ScheduleUsed(q, max, used), t)
  {
    var r := ScheduleUsed(q, max, used);
    SupplyLast(q, t);
    SupplyLast(r, t);
    if |r| == |q| {
      assert r[..|r| - 1] == q[..|q| - 1];
    } else {
      assert r[..|r| - 1] == q;
    }
  }

  /** A whole head refill is postponed by exactly one period. */
  lemma ChargeHeadPostpones(q: seq<Refill>, period: nat, budget: nat, max: nat)
    requires Queue(q, period, budget, max)
    ensures Postponed(q, ChargeHead(q, period, max), period, q[0].time, q[0].amount)
  {
    forall t: int
      ensures Supply(ChargeHead(q, period, max), t)
           <= Supply(q, t) - Ramp(t - q[0].time, q[0].amount) + Ramp(t - q[0].time - period, q[0].amount)
    {
      var late := Refill(q[0].time + period, q[0].amount);
      if |q| > 1 {
        ScheduleUsedSupply(q[1..], max, late, t);
      } else {
        assert [late][1..] == [];
      }
    }
  }

  /** The first part of the head is postponed by exactly one period. */
  lemma ChargePartPostpones(q: seq<Refill>, period: nat, budget: nat, max: nat, usage: nat)
    requires Queue(q, period, budget, max) && budget <= period && usage < q[0].amount
    ensures Postponed(q, ChargePart(q, period, max, usage), period, q[0].time, usage)
  {
    var q1 := q[0 := Refill(q[0].time + usage, q[0].amount - usage)];
    forall t: int
      ensures Supply(ChargePart(q, period, max, usage), t)
           <= Supply(q, t) - Ramp(t - q[0].time, usage) + Ramp(t - q[0].time - period, usage)
    {
      HeadWithinSum(q);
      assert q1[1..] == q[1..];
      ScheduleUsedSupply(q1, max, Refill(q[0].time + period, usage), t);
    }
  }

  lemma MergeHeadNoEarlier(q: seq<Refill>)
    requires |q| >= 2 && End(q[0]) <= q[1].time
    ensures NoEarlier(q, MergeHead(q))
  {
    forall t: int
      ensures Supply(MergeHead(q), t) <= Supply(q, t)
    {
      assert MergeHead(q)[1..] == q[2..] == q[1..][1..];
    }
  }

  lemma {:induction false} MinBudgetNoEarlier(q: seq<Refill>, minBudget: nat, period: nat, budget: nat, max: nat)
    requires Queue(q, period, budget, max) && minBudget <= budget
    ensures NoEarlier(q, EnsureMinBudget(q, minBudget, period, budget, max))
    decreases |q|
  {
    if q[0].amount < minBudget {
      MergeHeadKeepsQueue(q, minBudget, period, budget, max);
      assert End(q[0]) <= q[1].time;
      MergeHeadNoEarlier(q);
      MinBudgetNoEarlier(MergeHead(q), minBudget, period, budget, max);
    }
  }

  lemma {:induction false} MergeOverlappingNoEarlier(q: seq<Refill>)
    requires q != []
    ensures NoEarlier(q, MergeOverlapping(q))
    decreases |q|
  {
    if HeadOverlapping(q) {
      var r := [Refill(q[0].time, q[1].amount + q[0].amount)] + q[2..];
      forall t: int
        ensures Supply(r, t) <= Supply(q, t)
      {
        assert r[1..] == q[2..] == q[1..][1..];
      }
      MergeOverlappingNoEarlier(r);
    }
  }

  /** Unblocking never makes budget available earlier. */
  lemma UnblockNoEarlier(q: seq<Refill>, now: nat)
    requires q != []
    ensures NoEarlier(q, UnblockCheck(q, now))
  {
    if q[0].time <= now {
      var r := q[0 := Refill(now, q[0].amount)];
      forall t: int
        ensures Supply(r, t) <= Supply(q, t)
      {
        assert r[1..] == q[1..];
      }
      MergeOverlappingNoEarlier(r);
    }
  }

  /** Budget is postponed but never lost: all of it is available again within a period of the head. */
  lemma WholeBudgetReturns(q: seq<Refill>, period: nat, budget: nat, max: nat, t: int)
    requires Queue(q, period, budget, max) && q[0].time + period + budget <= t
    ensures Supply(q, t) == budget
  {
    forall i | 0 <= i < |q|
      ensures End(q[i]) <= t
    {
      AmountWithinSum(q, i);
      if i < |q| - 1 { assert End(q[i]) <= Last(q).time; }
    }
    AllAvailable(q, t);
  }

  lemma {:induction false} AllAvailable(q: seq<Refill>, t: int)
    requires forall i :: 0 <= i < |q| ==> End(q[i]) <= t
    ensures Supply(q, t) == Sum(q)
  {
    if q != [] { AllAvailable(q[1..], t); }
  }

  // ------------------------------------------------------------------ repeating supply

  /** Everything q can have made available by time t if each unit comes back one period after it is used. */
  function Repeating(q: seq<Refill>, period: nat, t: int): nat
    requires period > 0
    decreases t
  {
    if t <= 0 then 0 else Supply(q, t) + Repeating(q, period, t - period)
  }

  lemma {:induction false} NoEarlierRepeating(q1: seq<Refill>, q2: seq<Refill>, period: nat, t: int)
    requires period > 0 && NoEarlier(q1, q2)
    ensures Repeating(q2, period, t) <= Repeating(q1, period, t)
    decreases t
  {
    if t > 0 { NoEarlierRepeating(q1, q2, period, t - period); }
  }

  lemma {:induction false} PostponedRepeating(q1: seq<Refill>, q2: seq<Refill>, period: nat, from: nat, amount: nat,
                                              t: int)
    requires period > 0 && Postponed(q1, q2, period, from, amount)
    ensures Ramp(t - from, amount) + Repeating(q2, period, t) <= Repeating(q1, period, t)
    decreases t
  {
    if t > 0 { PostponedRepeating(q1, q2, period, from, amount, t - period); }
  }

  function Min(a: int, b: int): int {
    if a <= b then a else b
  }

  /** Behind the head nothing is available before the head is used up. */
  lemma HeadFirst(q: seq<Refill>, t: int)
    requires q != [] && Ordered(q)
    ensures Ramp(t - q[0].time, q[0].amount) < q[0].amount ==> Supply(q[1..], t) == 0
  {
    if Ramp(t - q[0].time, q[0].amount) < q[0].amount {
      forall i | 0 <= i < |q[1..]|
        ensures End(q[0]) <= q[1..][i].time
      {
        assert End(q[0]) <= q[i + 1].time;
      }
      NothingBeforeStart(q[1..], End(q[0]), t);
    }
  }

  /** Charging the head leaves at least what was available behind it. */
  lemma ChargeHeadKeepsRest(q: seq<Refill>, period: nat, budget: nat, max: nat, t: int)
    requires Queue(q, period, budget, max)
    ensures Supply(q[1..], t) <= Supply(ChargeHead(q, period, max), t)
  {
    if |q| > 1 {
      ScheduleUsedSupply(q[1..], max, Refill(q[0].time + period, q[0].amount), t);
    }
  }

  /** The head's part of the supply is charged first, then the rest. */
  lemma HeadThenRest(amount: nat, head: nat, rest: nat, s1: nat, s2: nat, r0: nat, r1: nat, r2: nat,
                     usage: nat, left: nat)
    requires amount <= usage && left <= usage - amount && head <= amount && (head < amount ==> rest == 0) && rest <= s1
    requires head + r1 <= r0 && Min(s1, usage - amount - left) + r2 <= r1
    requires Min(s1, usage - amount) - Min(s1, usage - amount - left) <= s2
    ensures Min(head + rest, usage - left) + r2 <= r0
    ensures Min(head + rest, usage) - Min(head + rest, usage - left) <= s2
  {
  }

  lemma QueueHead(q: seq<Refill>, period: nat, budget: nat, max: nat)
    requires Queue(q, period, budget, max)
    ensures q != [] && q[0].amount > 0
  {
  }

  /** What charging the head entirely leaves: its part is gone from the repeating supply, the rest is still there. */
  lemma OverrunStep(q: seq<Refill>, period: nat, budget: nat, max: nat, t: int)
    requires Queue(q, period, budget, max) && budget <= period && MIN_REFILLS <= max && period > 0
    ensures var q1, head := ChargeHead(q, period, max), Ramp(t - q[0].time, q[0].amount);
            && Queue(q1, period, budget, max)
            && Supply(q, t) == head + Supply(q[1..], t) && Supply(q[1..], t) <= Supply(q1, t)
            && head <= q[0].amount && (head < q[0].amount ==> Supply(q[1..], t) == 0)
            && head + Repeating(q1, period, t) <= Repeating(q, period, t)
  {
    assert Supply(q, t) == Ramp(t - q[0].time, q[0].amount) + Supply(q[1..], t);
    hide Positive, Sum, Supply, Repeating, Postponed, Ordered, ChargeHead;
    ChargeHeadKeepsQueue(q, period, budget, max);
    ChargeHeadPostpones(q, period, budget, max);
    PostponedRepeating(q, ChargeHead(q, period, max), period, q[0].time, q[0].amount, t);
    ChargeHeadKeepsRest(q, period, budget, max, t);
    HeadFirst(q, t);
  }

  lemma {:induction false} OverrunRepeating(q: seq<Refill>, lim: Limits, period: nat, budget: nat, max: nat,
                                            usage: nat, t: int)
    requires Queue(q, period, budget, max) && budget <= period && MIN_REFILLS <= max && period > 0
    ensures var (r, left) := HandleOverrun(q, lim, period, budget, max, usage);
            && Min(Supply(q, t), usage - left) + Repeating(r, period, t) <= Repeating(q, period, t)
            && Min(Supply(q, t), usage) - Min(Supply(q, t), usage - left) <= Supply(r, t)
    decreases usage
  {
    hide Queue, Supply, Repeating, ChargeHead, Ramp;
    QueueHead(q, period, budget, max);
    if Overrun(q, lim, usage) {
      var q1 := ChargeHead(q, period, max);
      OverrunStep(q, period, budget, max, t);
      OverrunRepeating(q1, lim, period, budget, max, usage - q[0].amount, t);
      var (r, left) := HandleOverrun(q, lim, period, budget, max, usage);
      HeadThenRest(q[0].amount, Ramp(t - q[0].time, q[0].amount), Supply(q[1..], t), Supply(q1, t), Supply(r, t),
                   Repeating(q, period, t), Repeating(q1, period, t), Repeating(r, period, t), usage, left);
    }
  }

  /** Usage that refill_budget_check leaves uncharged because the head cannot be postponed any further. */
  function Dropped(q: seq<Refill>, lim: Limits, period: nat, budget: nat, max: nat, usage: nat): nat
    requires Queue(q, period, budget, max) && budget <= period && MIN_REFILLS <= max
  {
    var (q1, left) := HandleOverrun(q, lim, period, budget, max, usage);
    if q1[0].time < lim.MaxRelease() then 0 else left
  }

  /**
   * Charging takes what it charges off the repeating supply, at every time by which that much was
   * available, whether or not the usage overran the head.
   */
  lemma ChargeRepeating(q: seq<Refill>, lim: Limits, period: nat, budget: nat, max: nat, usage: nat, t: int)
    requires Queue(q, period, budget, max) && budget <= period && MIN_REFILLS <= max && period > 0
    ensures Min(Supply(q, t), usage - Dropped(q, lim, period, budget, max, usage))
            + Repeating(Charge(q, lim, period, budget, max, usage), period, t)
         <= Repeating(q, period, t)
  {
    hide Repeating, ChargePart, HandleOverrun;
    OverrunRepeating(q, lim, period, budget, max, usage, t);
    var (q1, left) := HandleOverrun(q, lim, period, budget, max, usage);
    if left > 0 && q1[0].time < lim.MaxRelease() {
      ChargePartPostpones(q1, period, budget, max, left);
      PostponedRepeating(q1, ChargePart(q1, period, max, left), period, q1[0].time, left, t);
      HeadFirst(q1, t);
    }
  }

  lemma BudgetCheckRepeating(q: seq<Refill>, lim: Limits, period: nat, budget: nat, max: nat, usage: nat, t: int)
    requires Queue(q, period, budget, max) && Parameters(lim, period, budget, max)
    ensures Min(Supply(q, t), usage - Dropped(q, lim, period, budget, max, usage))
            + Repeating(BudgetCheck(q, lim, period, budget, max, usage), period, t)
         <= Repeating(q, period, t)
  {
    hide Repeating, Dropped, Supply, Charge, EnsureMinBudget;
    var q1 := Charge(q, lim, period, budget, max, usage);
    ChargeRepeating(q, lim, period, budget, max, usage, t);
    MinBudgetNoEarlier(q1, lim.minBudget, period, budget, max);
    NoEarlierRepeating(q1, EnsureMinBudget(q1, lim.minBudget, period, budget, max), period, t);
  }

  lemma NothingBeforeHead(q: seq<Refill>, t: int)
    requires q != [] && Ordered(q) && t <= q[0].time
    ensures Supply(q, t) == 0
  {
    forall i | 0 <= i < |q|
      ensures q[0].time <= q[i].time
    {
      if i > 0 { assert End(q[0]) <= q[i].time; }
    }
    NothingBeforeStart(q, q[0].time, t);
  }

  /** Usage that was available is charged in full. */
  lemma AvailableIsCharged(q: seq<Refill>, lim: Limits, period: nat, budget: nat, max: nat, usage: nat, now: int)
    requires Queue(q, period, budget, max) && Parameters(lim, period, budget, max)
    requires usage <= Supply(q, now) && now <= lim.MaxRelease()
    ensures Dropped(q, lim, period, budget, max, usage) == 0
  {
    hide Repeating, HandleOverrun;
    OverrunRepeating(q, lim, period, budget, max, usage, now);
    var (q1, left) := HandleOverrun(q, lim, period, budget, max, usage);
    if left > 0 && lim.MaxRelease() <= q1[0].time {
      NothingBeforeHead(q1, now);
    }
  }

  lemma {:induction false} SupplyMonotone(q: seq<Refill>, s: int, t: int)
    requires s <= t
    ensures Supply(q, s) <= Supply(q, t)
  {
    if q != [] { SupplyMonotone(q[1..], s, t); }
  }

  // ------------------------------------------------------------------ runs

  datatype Event =
    | Charged(at: nat, usage: nat)
    | Unblocked(at: nat)

  function Step(q: seq<Refill>, lim: Limits, period: nat, budget: nat, max: nat, e: Event): (r: seq<Refill>)
    requires Inv(q, lim, period, budget, max) && e.at < lim.MaxRelease()
    ensures Inv(r, lim, period, budget, max)
  {
    match e
    case Charged(_, usage) =>
      BudgetCheckKeepsInv(q, lim, period, budget, max, usage);
      BudgetCheck(q, lim, period, budget, max, usage)
    case Unblocked(now) =>
      UnblockCheckKeepsInv(q, lim, period, budget, max, now);
      UnblockCheck(q, now)
  }

  /** The events of a run happen by the time `until`, and before the end of the clock. */
  predicate IsRun(lim: Limits, run: seq<Event>, until: nat) {
    forall e | e in run :: e.at <= until && e.at < lim.MaxRelease()
  }

  lemma RunTail(lim: Limits, run: seq<Event>, until: nat)
    requires IsRun(lim, run, until) && run != []
    ensures IsRun(lim, run[1..], until) && run[0].at <= until && run[0].at < lim.MaxRelease()
  {
    assert run[0] in run && forall e | e in run[1..] :: e in run;
  }

  function TotalCharged(run: seq<Event>): nat {
    if run == [] then 0 else (if run[0].Charged? then run[0].usage else 0) + TotalCharged(run[1..])
  }

  /** What the charges of a run exceeded the budget by that was available when they were made. */
  function Overdrawn(q: seq<Refill>, lim: Limits, period: nat, budget: nat, max: nat, run: seq<Event>, until: nat): nat
    requires Inv(q, lim, period, budget, max) && IsRun(lim, run, until)
    decreases |run|
  {
    if run == [] then 0
    else
      RunTail(lim, run, until);
      var e := run[0];
      (if e.Charged? && e.usage > Supply(q, e.at) then e.usage - Supply(q, e.at) else 0)
      + Overdrawn(Step(q, lim, period, budget, max, e), lim, period, budget, max, run[1..], until)
  }

  /** Of each charge, the part that was available comes off the repeating supply. */
  lemma AvailablePartIsCharged(q: seq<Refill>, lim: Limits, period: nat, budget: nat, max: nat,
                               usage: nat, now: int, until: int)
    requires Queue(q, period, budget, max) && Parameters(lim, period, budget, max)
    requires now <= lim.MaxRelease() && now <= until
    ensures Min(Supply(q, now), usage) + Repeating(BudgetCheck(q, lim, period, budget, max, usage), period, until)
         <= Repeating(q, period, until)
  {
    hide Repeating, HandleOverrun, BudgetCheck;
    OverrunRepeating(q, lim, period, budget, max, usage, now);
    var (q1, left) := HandleOverrun(q, lim, period, budget, max, usage);
    if lim.MaxRelease() <= q1[0].time { NothingBeforeHead(q1, now); }
    SupplyMonotone(q, now, until);
    BudgetCheckRepeating(q, lim, period, budget, max, usage, until);
  }

  /** Whatever a run uses, beyond what it overdraws, comes out of the repeating supply it started with. */
  lemma {:induction false} RunWithinRepeating(q: seq<Refill>, lim: Limits, period: nat, budget: nat, max: nat,
                                              run: seq<Event>, until: nat)
    requires Inv(q, lim, period, budget, max) && IsRun(lim, run, until)
    ensures TotalCharged(run) <= Repeating(q, period, until) + Overdrawn(q, lim, period, budget, max, run, until)
    decreases |run|
  {
    hide Repeating, Supply, BudgetCheck, UnblockCheck, Queue, IsRun;
    if run != [] {
      RunTail(lim, run, until);
      var e := run[0];
      var q1 := Step(q, lim, period, budget, max, e);
      RunWithinRepeating(q1, lim, period, budget, max, run[1..], until);
      match e {
        case Charged(now, usage) =>
          AvailablePartIsCharged(q, lim, period, budget, max, usage, now, until);
        case Unblocked(now) =>
          QueueNonEmpty(q, period, budget, max);
          UnblockNoEarlier(q, now);
          NoEarlierRepeating(q, q1, period, until);
      }
    }
  }

  lemma QueueNonEmpty(q: seq<Refill>, period: nat, budget: nat, max: nat)
    requires Queue(q, period, budget, max)
    ensures q != []
  {
  }

  lemma {:induction false} RepeatingWithinPeriods(q: seq<Refill>, period: nat, budget: nat, max: nat, periods: nat,
                                                  t: int)
    requires Queue(q, period, budget, max) && period > 0 && t <= q[0].time + periods * period
    ensures Repeating(q, period, t) <= periods * budget
    decreases periods
  {
    if periods == 0 {
      NothingBefore(q, period, budget, max, t);
    } else {
      SupplyAtMostSum(q, t);
      MulSum(periods - 1, 1, period);
      MulSum(periods - 1, 1, budget);
      RepeatingWithinPeriods(q, period, budget, max, periods - 1, t - period);
    }
  }

  lemma {:induction false} NothingBefore(q: seq<Refill>, period: nat, budget: nat, max: nat, t: int)
    requires Queue(q, period, budget, max) && period > 0 && t <= q[0].time
    ensures Repeating(q, period, t) == 0
    decreases t
  {
    if t > 0 {
      NothingBeforeHead(q, t);
      NothingBefore(q, period, budget, max, t - period);
    }
  }

  /**
   * The sliding-window guarantee: counted from the head's time, every run uses at most the budget per period,
   * except for what its charges exceed the available budget by.
   */
  lemma WindowBound(q: seq<Refill>, lim: Limits, period: nat, budget: nat, max: nat,
                    run: seq<Event>, periods: nat, until: nat)
    requires Inv(q, lim, period, budget, max) && IsRun(lim, run, until)
    requires until <= q[0].time + periods * period
    ensures TotalCharged(run) <= periods * budget + Overdrawn(q, lim, period, budget, max, run, until)
  {
    hide Repeating, Supply, IsRun, TotalCharged, Overdrawn;
    RunWithinRepeating(q, lim, period, budget, max, run, until);
    RepeatingWithinPeriods(q, period, budget, max, periods, until);
  }

  /** After refill_update the new budget bounds every new period, whatever was left of the old one. */
  lemma UpdatedWindow(q: seq<Refill>, lim: Limits, now: nat, period: nat, budget: nat, max: nat,
                      run: seq<Event>, periods: nat, until: nat)
    requires q != [] && lim.minBudget <= q[0].amount && q[0].time <= lim.MaxRelease() + lim.maxPeriod
    requires now < lim.MaxRelease() && Parameters(lim, period, budget, max)
    requires Inv(Update(q, now, period, budget), lim, period, budget, max) && IsRun(lim, run, until)
    requires until <= now + periods * period
    ensures TotalCharged(run)
         <= periods * budget + Overdrawn(Update(q, now, period, budget), lim, period, budget, max, run, until)
  {
    assert now <= Update(q, now, period, budget)[0].time;
    hide Inv, IsRun, TotalCharged, Update, Overdrawn;
    WindowBound(Update(q, now, period, budget), lim, period, budget, max, run, periods, until);
  }

  /** refill_new: the whole budget, from now on. */
  lemma NewSupply(now: nat, period: nat, budget: nat, t: int)
    ensures Supply(NewQueue(now, period, budget), t) == Ramp(t - now, budget)
  {
    var q := NewQueue(now, period, budget);
    if |q| > 1 {
      assert q[1..][1..] == [];
      assert Supply(q[1..], t) == Ramp(t - now, 0) + Supply([], t);
    } else {
      assert q[1..] == [];
    }
  }

  /**
   * refill_update: for one new period from the head on there is just what was left in the old head, cut to the new
   * budget; and a budget later all of the new one has been available.
   */
  lemma UpdatedSupply(q: seq<Refill>, now: nat, period: nat, budget: nat, t: int)
    requires q != [] && period > 0
    ensures var r := Update(q, now, period, budget);
            && r[0].time == (if q[0].time <= now then now else q[0].time)
            && (t <= r[0].time + period ==> Supply(r, t) == Ramp(t - r[0].time, Min(q[0].amount, budget)))
            && (r[0].time + period + budget <= t ==> Supply(r, t) == budget)
  {
    var r := Update(q, now, period, budget);
    if |r| > 1 {
      assert r[1..][1..] == [];
      assert Supply(r[1..], t) == Ramp(t - r[1].time, r[1].amount) + Supply([], t);
    } else {
      assert r[1..] == [];
    }
  }

  // ------------------------------------------------------------------ overruns are repaid

  /** Charging the head moves on to a time when the head would have been used up. */
  lemma ChargeHeadMovesOn(q: seq<Refill>, period: nat, budget: nat, max: nat)
    requires Queue(q, period, budget, max) && budget <= period && MIN_REFILLS <= max
    ensures End(q[0]) <= ChargeHead(q, period, max)[0].time
  {
    HeadWithinSum(q);
    if |q| > 1 { assert End(q[0]) <= q[1].time; }
  }

  lemma ChargePartMovesOn(q: seq<Refill>, period: nat, budget: nat, max: nat, usage: nat)
    requires Queue(q, period, budget, max) && MIN_REFILLS <= max && usage < q[0].amount
    ensures ChargePart(q, period, max, usage)[0].time == q[0].time + usage
  {
  }

  /** By the time the next refill is due, everything charged has come off the repeating supply. */
  lemma {:induction false} OverrunPaid(q: seq<Refill>, lim: Limits, period: nat, budget: nat, max: nat, usage: nat,
                                       t: int)
    requires Queue(q, period, budget, max) && budget <= period && MIN_REFILLS <= max && period > 0
    ensures var (r, left) := HandleOverrun(q, lim, period, budget, max, usage);
            && q[0].time <= r[0].time
            && (r[0].time <= t ==> usage - left + Repeating(r, period, t) <= Repeating(q, period, t))
    decreases usage
  {
    hide Repeating;
    if Overrun(q, lim, usage) {
      var q1 := ChargeHead(q, period, max);
      ChargeHeadKeepsQueue(q, period, budget, max);
      ChargeHeadPostpones(q, period, budget, max);
      PostponedRepeating(q, q1, period, q[0].time, q[0].amount, t);
      ChargeHeadMovesOn(q, period, budget, max);
      hide ChargeHead;
      OverrunPaid(q1, lim, period, budget, max, usage - q[0].amount, t);
    }
  }

  lemma ChargePaid(q: seq<Refill>, lim: Limits, period: nat, budget: nat, max: nat, usage: nat, t: int)
    requires Queue(q, period, budget, max) && budget <= period && MIN_REFILLS <= max && period > 0
    ensures var r := Charge(q, lim, period, budget, max, usage);
            var dropped := Dropped(q, lim, period, budget, max, usage);
            && q[0].time <= r[0].time && (dropped > 0 ==> lim.MaxRelease() <= r[0].time)
            && (r[0].time <= t ==> usage - dropped + Repeating(r, period, t) <= Repeating(q, period, t))
  {
    hide Repeating, HandleOverrun;
    OverrunPaid(q, lim, period, budget, max, usage, t);
    var (q1, left) := HandleOverrun(q, lim, period, budget, max, usage);
    if left > 0 && q1[0].time < lim.MaxRelease() {
      ChargePartPostpones(q1, period, budget, max, left);
      PostponedRepeating(q1, ChargePart(q1, period, max, left), period, q1[0].time, left, t);
      ChargePartMovesOn(q1, period, budget, max, left);
    }
  }

  lemma {:induction false} MinBudgetMovesOn(q: seq<Refill>, minBudget: nat, period: nat, budget: nat, max: nat)
    requires Queue(q, period, budget, max) && minBudget <= budget
    ensures q[0].time <= EnsureMinBudget(q, minBudget, period, budget, max)[0].time
    decreases |q|
  {
    if q[0].amount < minBudget {
      MergeHeadKeepsQueue(q, minBudget, period, budget, max);
      assert End(q[0]) <= q[1].time;
      MinBudgetMovesOn(MergeHead(q), minBudget, period, budget, max);
    }
  }

  lemma {:induction false} MergeMovesOn(q: seq<Refill>)
    requires q != []
    ensures MergeOverlapping(q)[0].time == q[0].time
    decreases |q|
  {
    if HeadOverlapping(q) { MergeMovesOn([Refill(q[0].time, q[1].amount + q[0].amount)] + q[2..]); }
  }

  /** One event: the head never moves back, and what is charged is paid by the time of the new head. */
  lemma StepPaid(q: seq<Refill>, lim: Limits, period: nat, budget: nat, max: nat, e: Event, t: int)
    requires Inv(q, lim, period, budget, max) && e.at < lim.MaxRelease()
    ensures var r := Step(q, lim, period, budget, max, e);
            && q[0].time <= r[0].time
            && (r[0].time <= t && r[0].time < lim.MaxRelease() ==>
                  (if e.Charged? then e.usage else 0) + Repeating(r, period, t) <= Repeating(q, period, t))
  {
    hide Repeating, Charge, EnsureMinBudget, Dropped;
    match e {
      case Charged(_, usage) =>
        var q1 := Charge(q, lim, period, budget, max, usage);
        ChargePaid(q, lim, period, budget, max, usage, t);
        MinBudgetMovesOn(q1, lim.minBudget, period, budget, max);
        MinBudgetNoEarlier(q1, lim.minBudget, period, budget, max);
        NoEarlierRepeating(q1, EnsureMinBudget(q1, lim.minBudget, period, budget, max), period, t);
      case Unblocked(now) =>
        UnblockNoEarlier(q, now);
        NoEarlierRepeating(q, UnblockCheck(q, now), period, t);
        if q[0].time <= now { MergeMovesOn(q[0 := Refill(now, q[0].amount)]); }
    }
  }

  function Final(q: seq<Refill>, lim: Limits, period: nat, budget: nat, max: nat, run: seq<Event>,
                 until: nat): (r: seq<Refill>)
    requires Inv(q, lim, period, budget, max) && IsRun(lim, run, until)
    ensures Inv(r, lim, period, budget, max)
    decreases |run|
  {
    if run == [] then q
    else
      RunTail(lim, run, until);
      Final(Step(q, lim, period, budget, max, run[0]), lim, period, budget, max, run[1..], until)
  }

  /** However much its charges overran, a run has been paid for by the time its next refill is due. */
  lemma {:induction false} RunPaid(q: seq<Refill>, lim: Limits, period: nat, budget: nat, max: nat,
                                   run: seq<Event>, until: nat, t: int)
    requires Inv(q, lim, period, budget, max) && IsRun(lim, run, until)
    ensures var r := Final(q, lim, period, budget, max, run, until);
            && q[0].time <= r[0].time
            && (r[0].time <= t && r[0].time < lim.MaxRelease() ==>
                  TotalCharged(run) + Repeating(r, period, t) <= Repeating(q, period, t))
    decreases |run|
  {
    hide Repeating, Step, Queue, Parameters, IsRun;
    if run != [] {
      RunTail(lim, run, until);
      StepPaid(q, lim, period, budget, max, run[0], t);
      RunPaid(Step(q, lim, period, budget, max, run[0]), lim, period, budget, max, run[1..], until, t);
    }
  }

  /**
   * The guarantee for every run, overruns included: counted from the head's time to the time at which budget is
   * next available, no more than the budget per period has been used.
   */
  lemma PaidWindow(q: seq<Refill>, lim: Limits, period: nat, budget: nat, max: nat,
                   run: seq<Event>, until: nat, periods: nat)
    requires Inv(q, lim, period, budget, max) && IsRun(lim, run, until)
    requires var next := Final(q, lim, period, budget, max, run, until)[0].time;
             next < lim.MaxRelease() && next <= q[0].time + periods * period
    ensures TotalCharged(run) <= periods * budget
  {
    hide Repeating, IsRun, TotalCharged, Final;
    var next := Final(q, lim, period, budget, max, run, until)[0].time;
    RunPaid(q, lim, period, budget, max, run, until, next);
    RepeatingWithinPeriods(q, period, budget, max, periods, next);
  }
}
