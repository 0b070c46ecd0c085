/** schedule(): which thread runs next on a core, and why none that is ready outranks it. */
module Schedule {
  import opened EpQueue
  import opened Scheduler

  /**
   * runnable: the thread can be scheduled; queued: it is in the ready queue of its domain and priority;
   * released: it has a scheduling context and does not wait for its next refill.
   */
  datatype Thread = Thread(prio: nat, domain: nat, queued: bool, runnable: bool, released: bool)

  datatype Action = ResumeCurrent | ChooseNew | SwitchTo(thread: nat)

  datatype Slice = Slice(domain: nat, length: nat)

  predicate QueueOk(threads: map<nat, Thread>, d: nat, p: nat, q: seq<nat>) {
    && Distinct(q)
    && forall t :: t in q ==> t in threads && threads[t].domain == d && threads[t].prio == p && threads[t].queued
  }

  predicate ThreadOk(threads: map<nat, Thread>, domains: seq<Domain>, t: nat)
    requires t in threads
  {
    var th := threads[t];
    && th.prio < PRIORITIES && th.domain < |domains|
    && |domains[th.domain].queues| == PRIORITIES
    && (th.queued ==> t in domains[th.domain].queues[th.prio])
  }

  predicate Consistent(threads: map<nat, Thread>, domains: seq<Domain>) {
    && (forall d :: 0 <= d < |domains| ==> DomainOk(domains[d]))
    && (forall d, p :: 0 <= d < |domains| && 0 <= p < |domains[d].queues| ==>
          QueueOk(threads, d, p, domains[d].queues[p]))
    && (forall t :: t in threads ==> ThreadOk(threads, domains, t))
  }

  /** The ready queues after thread t enters its queue, or leaves it, so that the queue is q. */
  function Requeued(domains: seq<Domain>, th: Thread, q: seq<nat>): seq<Domain>
    requires th.domain < |domains| && th.prio < PRIORITIES && DomainOk(domains[th.domain])
  {
    domains[th.domain := WithQueue(domains[th.domain], th.prio, q)]
  }

  lemma RequeueKeeps(threads: map<nat, Thread>, domains: seq<Domain>, t: nat, queued: bool, q: seq<nat>)
    requires Consistent(threads, domains) && t in threads && Distinct(q)
    requires var th := threads[t];
             && th.prio < PRIORITIES && th.domain < |domains| && DomainOk(domains[th.domain])
             && (forall x :: x in q <==> if x == t then queued else x in domains[th.domain].queues[th.prio])
    ensures Consistent(threads[t := threads[t].(queued := queued)], Requeued(domains, threads[t], q))
  {
    hide DomainOk, Distinct;
    var th := threads[t];
    var threads' := threads[t := th.(queued := queued)];
    var domains' := Requeued(domains, th, q);
    WithQueueOk(domains[th.domain], th.prio, q);
    forall d, p | 0 <= d < |domains'| && 0 <= p < |domains'[d].queues|
      ensures QueueOk(threads', d, p, domains'[d].queues[p])
    {
      assert QueueOk(threads, d, p, domains[d].queues[p]);
    }
    forall x | x in threads'
      ensures ThreadOk(threads', domains', x)
    {
      assert ThreadOk(threads, domains, x);
    }
  }

  predicate Ready(threads: map<nat, Thread>, d: nat, x: nat) {
    x in threads && threads[x].queued && threads[x].domain == d
  }

  /** No ready thread of the domain has a higher priority. */
  ghost predicate NoneAbove(threads: map<nat, Thread>, d: nat, prio: nat) {
    forall x :: Ready(threads, d, x) ==> threads[x].prio <= prio
  }

  /** No ready thread of the domain outranks t; the idle thread is outranked by any. */
  ghost predicate Best(threads: map<nat, Thread>, d: nat, t: nat) {
    if t in threads then NoneAbove(threads, d, threads[t].prio) else forall x :: !Ready(threads, d, x)
  }

  lemma ReadyIsQueued(threads: map<nat, Thread>, domains: seq<Domain>, d: nat, x: nat)
    requires Consistent(threads, domains) && d < |domains| && Ready(threads, d, x)
    ensures DomainOk(domains[d]) && threads[x].prio < PRIORITIES && x in domains[d].queues[threads[x].prio]
  {
    hide DomainOk;
    assert ThreadOk(threads, domains, x);
  }

  lemma HeadIsReady(threads: map<nat, Thread>, d: nat, p: nat, q: seq<nat>)
    requires QueueOk(threads, d, p, q) && q != []
    ensures Ready(threads, d, q[0]) && threads[q[0]].prio == p
  {
    assert q[0] in q;
  }

  /** The queues above a priority are empty exactly if no ready thread is above it. */
  lemma QueuesAbove(threads: map<nat, Thread>, domains: seq<Domain>, d: nat, prio: nat)
    requires Consistent(threads, domains) && d < |domains|
    ensures NoneAbove(threads, d, prio) <==>
            forall q :: prio < q < |domains[d].queues| ==> domains[d].queues[q] == []
  {
    hide DomainOk, Distinct;
    var queues := domains[d].queues;
    if forall q :: prio < q < |queues| ==> queues[q] == [] {
      forall x | Ready(threads, d, x)
        ensures threads[x].prio <= prio
      {
        ReadyIsQueued(threads, domains, d, x);
      }
    }
    if NoneAbove(threads, d, prio) {
      forall q | prio < q < |queues|
        ensures queues[q] == []
      {
        assert QueueOk(threads, d, q, queues[q]);
        if queues[q] != [] { HeadIsReady(threads, d, q, queues[q]); }
      }
    }
  }

  lemma NextIndex(i: nat, n: nat)
    requires i < n
    ensures (i + 1) % n == if i + 1 < n then i + 1 else 0
  {
  }

  class Core {
    var threads: map<nat, Thread>
    var domains: seq<Domain>
    var cur: nat
    var action: Action
    var curDomain: nat
    var domainTime: nat
    var slice: nat
    const idle: nat
    const slices: seq<Slice>

    /** All queues empty, the idle thread running. */
    constructor (domainCount: nat, threads: map<nat, Thread>, idle: nat, slices: seq<Slice>)
      requires idle !in threads && 0 !in threads && slices != []
      requires forall t :: t in threads ==>
               threads[t].prio < PRIORITIES && threads[t].domain < domainCount && !threads[t].queued
      requires forall i :: 0 <= i < |slices| ==> slices[i].domain < domainCount
      ensures Valid() && this.threads == threads && cur == idle && action == ResumeCurrent
    {
      this.threads, this.idle, this.slices := threads, idle, slices;
      domains := seq(domainCount, _ => EmptyDomain());
      cur, action, slice := idle, ResumeCurrent, 0;
      curDomain, domainTime := slices[0].domain, slices[0].length;
      EmptyDomainOk();
    }

    ghost predicate Valid()
      reads this
    {
      && Consistent(threads, domains)
      && idle !in threads && 0 !in threads && (cur == idle || cur in threads)
      && curDomain < |domains|
      && slice < |slices| && forall i :: 0 <= i < |slices| ==> slices[i].domain < |domains|
    }

    /** tcbSchedEnqueue: to the front of the thread's queue. */
    method Enqueue(t: nat)
      requires Valid() && t in threads
      modifies `threads, `domains
      ensures Valid() && threads == old(threads)[t := old(threads)[t].(queued := true)] && |domains| == |old(domains)|
      ensures if old(threads)[t].queued then domains == old(domains)
              else Joined(old(domains), threads[t], t, true, domains)
    {
      hide DomainOk, Distinct;
      assert ThreadOk(threads, domains, t);
      var th := threads[t];
      if !th.queued {
        var q := domains[th.domain].queues[th.prio];
        assert QueueOk(threads, th.domain, th.prio, q);
        PrependFacts(q, t);
        RequeueKeeps(threads, domains, t, true, [t] + q);
        RequeueIsExact(domains, th, [t] + q);
        domains := Requeued(domains, th, [t] + q);
        threads := threads[t := th.(queued := true)];
      }
    }

    /** tcbSchedAppend: to the end of the thread's queue. */
    method Append(t: nat)
      requires Valid() && t in threads
      modifies `threads, `domains
      ensures Valid() && threads == old(threads)[t := old(threads)[t].(queued := true)] && |domains| == |old(domains)|
      ensures if old(threads)[t].queued then domains == old(domains)
              else Joined(old(domains), threads[t], t, false, domains)
    {
      hide DomainOk, Distinct;
      assert ThreadOk(threads, domains, t);
      var th := threads[t];
      if !th.queued {
        var q := domains[th.domain].queues[th.prio];
        assert QueueOk(threads, th.domain, th.prio, q);
        AppendFacts(q, t);
        RequeueKeeps(threads, domains, t, true, q + [t]);
        RequeueIsExact(domains, th, q + [t]);
        domains := Requeued(domains, th, q + [t]);
        threads := threads[t := th.(queued := true)];
      }
    }

    /** tcbSchedDequeue */
    method Dequeue(t: nat)
      requires Valid() && t in threads
      modifies `threads, `domains
      ensures Valid() && threads == old(threads)[t := old(threads)[t].(queued := false)] && |domains| == |old(domains)|
      ensures if !old(threads)[t].queued then domains == old(domains)
              else Left(old(domains), threads[t], t, domains)
    {
      hide DomainOk, Distinct;
      assert ThreadOk(threads, domains, t);
      var th := threads[t];
      if th.queued {
        var q := domains[th.domain].queues[th.prio];
        assert QueueOk(threads, th.domain, th.prio, q);
        RemoveFacts(q, t);
        RequeueKeeps(threads, domains, t, false, Drop(q, t));
        RequeueIsExact(domains, th, Drop(q, t));
        domains := Requeued(domains, th, Drop(q, t));
        threads := threads[t := th.(queued := false)];
      }
    }

    /** switchToThread */
    method SwitchToThread(t: nat)
      requires Valid() && t in threads
      modifies `threads, `domains, `cur
      ensures Valid() && threads == old(threads)[t := old(threads)[t].(queued := false)] && cur == t
      ensures if !old(threads)[t].queued then domains == old(domains)
              else Left(old(domains), threads[t], t, domains)
    {
      Dequeue(t);
      cur := t;
    }

    /** chooseThread: the first thread of the highest occupied queue of the domain, or the idle thread. */
    method ChooseThread()
      requires Valid()
      modifies `threads, `domains, `cur
      ensures Valid() && Best(threads, curDomain, cur)
      ensures Chosen(old(threads), old(domains), threads, domains, curDomain, cur)
    {
      hide DomainOk, Consistent, NoneAbove;
      DomainPart(threads, domains, curDomain);
      var d := domains[curDomain];
      if d.l1 != 0 {
        var p := HighestPriority(d);
        var t := d.queues[p][0];
        HighestReady(threads, domains, curDomain, p);
        SwitchToThread(t);
        BestAfter(old(threads), threads, curDomain, t);
      } else {
        NothingReady(threads, domains, curDomain);
        cur := idle;
      }
    }

    /** nextDomain */
    method NextDomain()
      requires Valid()
      modifies `slice, `curDomain, `domainTime
      ensures Valid() && slice == (old(slice) + 1) % |slices|
      ensures curDomain == slices[slice].domain && domainTime == slices[slice].length
    {
      hide Consistent;
      NextIndex(slice, |slices|);
      slice := slice + 1;
      if slice >= |slices| {
        slice := 0;
      }
      curDomain := slices[slice].domain;
      domainTime := slices[slice].length;
    }

    method ScheduleChooseNewThread()
      requires Valid()
      modifies `threads, `domains, `cur, `slice, `curDomain, `domainTime
      ensures Valid() && Best(threads, curDomain, cur)
      ensures Chosen(old(threads), old(domains), threads, domains, curDomain, cur)
      ensures if old(domainTime) != 0
              then slice == old(slice) && curDomain == old(curDomain) && domainTime == old(domainTime)
              else slice == (old(slice) + 1) % |slices|
                   && curDomain == slices[slice].domain && domainTime == slices[slice].length
    {
      hide Consistent, Best;
      if domainTime == 0 {
        NextDomain();
      }
      ChooseThread();
    }

    ghost predicate ActionOk()
      reads this
    {
      action.SwitchTo? ==> Candidate(threads, curDomain, cur, action.thread)
    }

    /** rescheduleRequired: a thread set aside goes back to its queue. */
    method RescheduleRequired()
      requires Valid() && ActionOk()
      modifies `threads, `domains, `action
      ensures Valid() && action == ChooseNew && |domains| == |old(domains)|
      ensures Rescheduled(old(threads), old(domains), old(action), threads, domains)
    {
      hide Consistent;
      if action.SwitchTo? {
        Enqueue(action.thread);
      }
      action := ChooseNew;
    }

    /**
     * possibleSwitchTo: a thread that has to wait for budget is left alone; the first other one is set
     * aside, any further one makes all of them queue.
     */
    method PossibleSwitchTo(t: nat)
      requires Valid() && ActionOk() && t in threads
      requires threads[t].released ==> t != cur && threads[t].runnable && !threads[t].queued
      modifies `threads, `domains, `action
      ensures Valid() && ActionOk() && threads.Keys == old(threads.Keys)
      ensures !threads[t].released ==> threads == old(threads) && domains == old(domains) && action == old(action)
      ensures threads[t].released ==> action == SwitchTo(t) || Queued(threads, t)
      ensures old(action).SwitchTo? ==> action == old(action) || Queued(threads, old(action).thread)
      ensures threads[t].released ==>
                (action == SwitchTo(t) <==> threads[t].domain == curDomain && old(action) == ResumeCurrent)
      ensures action == SwitchTo(t) && threads[t].released ==> threads == old(threads) && domains == old(domains)
      ensures threads[t].released && threads[t].domain != curDomain ==>
                && action == old(action) && Joined(old(domains), threads[t], t, true, domains)
                && threads == old(threads)[t := old(threads)[t].(queued := true)]
      ensures threads[t].released && threads[t].domain == curDomain && old(action) != ResumeCurrent ==>
                && action == ChooseNew
                && exists others: map<nat, Thread>, mid: seq<Domain> ::
                     && Rescheduled(old(threads), old(domains), old(action), others, mid)
                     && t in others && threads == others[t := others[t].(queued := true)]
                     && if others[t].queued then domains == mid else Joined(mid, threads[t], t, true, domains)
    {
      hide Consistent, Requeues;
      if threads[t].released {
        if curDomain != threads[t].domain {
          Enqueue(t);
        } else if action != ResumeCurrent {
          RescheduleRequired();
          ghost var others, mid := threads, domains;
          Enqueue(t);
          assert Rescheduled(old(threads), old(domains), old(action), others, mid);
        } else {
          action := SwitchTo(t);
        }
      }
    }

    /** A thread leaves its queue for the front of that of another priority. */
    method Requeue(t: nat, prio: nat)
      requires Valid() && t in threads && prio < PRIORITIES
      modifies `threads, `domains
      ensures Valid() && threads == old(threads)[t := old(threads)[t].(prio := prio, queued := true)]
      ensures Moved(old(threads), old(domains), t, prio, domains)
    {
      hide Consistent, Joined, Left, Moved;
      Dequeue(t);
      ghost var left := domains;
      SameLeft(old(domains), old(threads)[t], threads[t], t, left);
      PriorityKeeps(threads, domains, t, prio);
      threads := threads[t := threads[t].(prio := prio)];
      Enqueue(t);
      HasMoved(old(threads), old(domains), t, threads[t], left, domains);
    }

    /** setPriority on a thread that is not blocked: a queued or running one joins the front of its new queue. */
    method SetPriority(t: nat, prio: nat)
      requires Valid() && ActionOk() && t in threads && prio < PRIORITIES
      modifies `threads, `domains, `action
      ensures Valid() && ActionOk() && threads.Keys == old(threads.Keys) && threads[t].prio == prio
      ensures if Queued(old(threads), t) || t == cur
              then Queued(threads, t) && action == ChooseNew
                   && exists moved ::
                        && Moved(old(threads), old(domains), t, prio, moved)
                        && Rescheduled(old(threads)[t := old(threads)[t].(prio := prio, queued := true)], moved,
                                       old(action), threads, domains)
              else && threads == old(threads)[t := old(threads)[t].(prio := prio)]
                   && domains == old(domains) && action == old(action)
    {
      hide Consistent, Joined, Left, Moved;
      if threads[t].queued || t == cur {
        Requeue(t, prio);
        RescheduleRequired();
      } else {
        PriorityKeeps(threads, domains, t, prio);
        threads := threads[t := threads[t].(prio := prio)];
      }
    }

    /** The end of a slice with budget left: the current thread goes to the back of its queue. */
    method EndTimeslice()
      requires Valid() && ActionOk() && cur in threads
      modifies `threads, `domains, `action
      ensures Valid() && action == ChooseNew && Queued(threads, cur)
      ensures exists mid ::
                && Appended(old(threads), old(domains), cur, mid)
                && Rescheduled(old(threads)[cur := old(threads)[cur].(queued := true)], mid, old(action),
                               threads, domains)
    {
      hide Consistent, Requeues;
      Append(cur);
      ghost var mid := domains;
      assert Appended(old(threads), old(domains), cur, mid);
      RescheduleRequired();
    }

    /** The current thread may go on until the end of its slice: nothing ready outranks it. */
    ghost predicate InSlice()
      reads this
    {
      && !action.SwitchTo? && cur in threads && !threads[cur].queued && threads[cur].runnable && domainTime != 0
      && threads[cur].domain == curDomain && NoneAbove(threads, curDomain, threads[cur].prio)
    }

    /** Round robin: after its slice a thread makes way for the next one of its priority, and is behind all of them. */
    method NextSlice()
      requires Valid() && InSlice()
      modifies this
      ensures Valid() && action == ResumeCurrent && !Queued(threads, cur)
      ensures slice == old(slice) && curDomain == old(curDomain) && domainTime == old(domainTime)
      ensures Rotates(old(threads), old(domains), old(cur), threads, domains, cur)
    {
      hide Consistent, NoneAbove, Requeues, Chosen, Entered, Decided, Kept;
      ghost var t, before, d0 := cur, threads, domains;
      EndTimeslice();
      ghost var queued, queues := threads, domains;
      Schedule();
      ghost var mid :| Entered(queued, queues, t, mid)
                       && Decided(Kept(queued, t), mid, curDomain, t, ChooseNew, threads, domains, curDomain, cur);
      ChosenFromQueue(queued, queues, curDomain, t, mid, threads, domains, curDomain, cur);
      AfterSlice(before, d0, queued, threads, queues, domains, curDomain, t, cur);
    }

    /**
     * Fairness: as long as nothing else happens, the threads of a priority run one slice each, in the order of
     * their queue, and then everything is as it was.
     */
    method FullRound() returns (selected: seq<nat>)
      requires Valid() && InSlice() && forall x | x in QueueOf(domains, threads[cur]) :: Runs(threads, x)
      modifies this
      ensures Valid() && action == ResumeCurrent
      ensures selected == QueueOf(old(domains), old(threads)[old(cur)]) + [old(cur)]
      ensures cur == old(cur) && threads == old(threads)
      ensures forall d: nat, p: nat :: QueueAt(domains, d, p) == QueueAt(old(domains), d, p)
    {
      hide Consistent, NoneAbove, Requeues, Rotates, AtTurn, InRing;
      ghost var t0, d0, c0, ring := threads, domains, cur, [cur] + QueueOf(domains, threads[cur]);
      var n := |QueueOf(domains, threads[cur])|;
      selected := [];
      TurnStarts(threads, domains, cur);
      for i := 0 to n + 1
        invariant Valid() && selected == (ring + ring)[1..i + 1] && (i > 0 ==> action == ResumeCurrent)
        invariant slice == old(slice) && curDomain == old(curDomain) && domainTime == old(domainTime)
        invariant !action.SwitchTo? && AtTurn(t0, d0, c0, i, threads, domains, cur)
      {
        TurnInSlice(t0, d0, c0, i, threads, domains, cur);
        ghost var t1, d1, c1 := threads, domains, cur;
        NextSlice();
        TurnGoesOn(t0, d0, c0, i, t1, d1, c1, threads, domains, cur);
        selected := selected + [cur];
      }
      TurnEnds(t0, d0, c0, threads, domains, cur);
    }

    /**
     * schedule. The thread it selects is outranked by no ready thread exactly in the cases Safe lists;
     * in particular whenever none outranked the current thread before. Nobody who could run is forgotten.
     */
    method Schedule()
      requires Valid() && ActionOk()
      modifies this
      ensures Valid() && action == ResumeCurrent
      ensures old(action) != ResumeCurrent || !Queued(old(threads), old(cur)) ==> !Queued(threads, cur)
      ensures Best(threads, curDomain, cur) <==> Safe(old(threads), old(curDomain), old(cur), old(action))
      ensures old(Best(threads, curDomain, cur)) ==> Best(threads, curDomain, cur)
      ensures old(action).SwitchTo? ==> cur == old(action).thread || Queued(threads, old(action).thread)
      ensures old(action) != ResumeCurrent && Runs(old(threads), old(cur)) ==>
              cur == old(cur) || Queued(threads, old(cur))
      ensures old(action).SwitchTo? && old(domainTime) != 0 && !Queued(old(threads), old(cur)) ==>
                (Ties(old(threads), old(curDomain), old(cur), old(action).thread) ==> cur == old(cur))
      ensures old(action) == ResumeCurrent ==> cur == old(cur) && threads == old(threads) && domains == old(domains)
      ensures old(action) != ResumeCurrent ==>
                exists mid :: Entered(old(threads), old(domains), old(cur), mid)
                           && Decided(Kept(old(threads), old(cur)), mid, old(curDomain), old(cur), old(action),
                                      threads, domains, curDomain, cur)
      ensures old(action) == ResumeCurrent || old(domainTime) != 0 ==>
                slice == old(slice) && curDomain == old(curDomain) && domainTime == old(domainTime)
    {
      hide Consistent, Best, NoneAbove, Ties, Ready, Requeues, Chosen, Decided;
      BestIsSafe(threads, curDomain, cur, action);
      if action != ResumeCurrent {
        var wasRunnable := cur in threads && threads[cur].runnable;
        if wasRunnable {
          Enqueue(cur);
        }
        ghost var mid := domains;
        assert wasRunnable && !Queued(old(threads), cur) ==> Joined(old(domains), threads[cur], cur, true, mid);
        EnteredFacts(old(threads), old(domains), cur, threads, mid);
        hide Entered, Kept;
        if action == ChooseNew {
          ghost var t1 := threads;
          ScheduleChooseNewThread();
          ChooseNewDecides(t1, mid, old(curDomain), old(cur), threads, domains, curDomain, cur);
          ChosenFacts(t1, mid, threads, domains, curDomain, cur);
        } else {
          Consider(action.thread, wasRunnable, old(threads));
        }
      }
      action := ResumeCurrent;
    }

    /** The candidate set aside by possibleSwitchTo runs at once, or joins the queues. */
    method Consider(candidate: nat, wasRunnable: bool, ghost before: map<nat, Thread>)
      requires Valid() && Candidate(before, curDomain, cur, candidate) && wasRunnable == Runs(before, cur)
      requires threads == if wasRunnable then before[cur := before[cur].(queued := true)] else before
      requires wasRunnable && !Queued(before, cur) ==> First(QueueOf(domains, threads[cur])) == cur
      modifies this
      ensures Valid() && !Queued(threads, cur)
      ensures old(domainTime) != 0 ==>
                slice == old(slice) && curDomain == old(curDomain) && domainTime == old(domainTime)
      ensures Decided(old(threads), old(domains), old(curDomain), old(cur), SwitchTo(candidate),
                      threads, domains, curDomain, cur)
      ensures old(domainTime) != 0 && !Queued(before, old(cur)) && Ties(before, old(curDomain), old(cur), candidate) ==>
                cur == old(cur)
      ensures Best(threads, curDomain, cur) <==> Safe(before, old(curDomain), old(cur), SwitchTo(candidate))
      ensures cur == candidate || Queued(threads, candidate)
      ensures wasRunnable ==> cur == old(cur) || Queued(threads, old(cur))
    {
      hide Consistent, Best, NoneAbove, Ready, DomainOk, Deferred, Requeues;
      var prio := threads[candidate].prio;
      DomainPart(threads, domains, curDomain);
      QueuesAbove(threads, domains, curDomain, prio);
      var fastfail := cur == idle || prio < threads[cur].prio;
      var highest := true;
      if fastfail {
        highest := IsHighestPriority(domains[curDomain], prio);
      }
      ghost var t1, d1 := threads, domains;
      if fastfail && !highest {
        Defer(candidate, true);
        DeferredFacts(t1, d1, candidate, true, threads, domains, curDomain, cur);
      } else if wasRunnable && prio == threads[cur].prio {
        Defer(candidate, false);
        DeferredFacts(t1, d1, candidate, false, threads, domains, curDomain, cur);
        if old(domainTime) != 0 && !Queued(before, old(cur)) && Ties(before, curDomain, old(cur), candidate) {
          TieGoesToCurrent(before, t1, d1, threads, domains, curDomain, old(cur), candidate, cur);
        }
      } else {
        SkipIsExact(before, threads, curDomain, cur, candidate);
        assert threads[candidate := threads[candidate].(queued := false)] == threads;
        SwitchToThread(candidate);
      }
    }

    /** The thread joins its queue, and a new choice is made. */
    method Defer(t: nat, atFront: bool)
      requires Valid() && t in threads && !threads[t].queued
      modifies this
      ensures Valid() && Best(threads, curDomain, cur)
      ensures Deferred(old(threads), old(domains), t, atFront, threads, domains, curDomain, cur)
      ensures old(domainTime) != 0 ==>
                slice == old(slice) && curDomain == old(curDomain) && domainTime == old(domainTime)
    {
      hide Consistent, Best, Joined, Chosen;
      if atFront {
        Enqueue(t);
      } else {
        Append(t);
      }
      ghost var mid := domains;
      SameQueue(old(domains), old(threads)[t], threads[t], t, atFront, mid);
      action := ChooseNew;
      ScheduleChooseNewThread();
    }
  }

  lemma SameLeft(d0: seq<Domain>, a: Thread, b: Thread, t: nat, d1: seq<Domain>)
    requires a.domain == b.domain && a.prio == b.prio
    ensures Left(d0, b, t, d1) ==> Left(d0, a, t, d1)
  {
  }

  lemma SameQueue(d0: seq<Domain>, a: Thread, b: Thread, t: nat, atFront: bool, d1: seq<Domain>)
    requires a.domain == b.domain && a.prio == b.prio && Joined(d0, b, t, atFront, d1)
    ensures Joined(d0, a, t, atFront, d1)
  {
  }

  lemma DeferredFacts(threads: map<nat, Thread>, d0: seq<Domain>, t: nat, atFront: bool,
                      after: map<nat, Thread>, d1: seq<Domain>, d: nat, next: nat)
    requires Deferred(threads, d0, t, atFront, after, d1, d, next)
    ensures !Queued(after, next) && after.Keys == threads.Keys && (t == next || Queued(after, t))
    ensures forall x | Queued(threads, x) :: x == next || Queued(after, x)
  {
  }

  /** The ready queue that the thread belongs to. */
  function QueueOf(domains: seq<Domain>, th: Thread): seq<nat> {
    QueueAt(domains, th.domain, th.prio)
  }

  function QueueAt(domains: seq<Domain>, d: nat, p: nat): seq<nat> {
    if d < |domains| && p < |domains[d].queues| then domains[d].queues[p] else []
  }

  /** The queue of that domain and priority is now q, and every other queue is as before. */
  ghost predicate Requeues(d0: seq<Domain>, d1: seq<Domain>, domain: nat, prio: nat, q: seq<nat>) {
    && |d1| == |d0| && QueueAt(d1, domain, prio) == q
    && forall d: nat, p: nat :: (d != domain || p != prio) ==> QueueAt(d1, d, p) == QueueAt(d0, d, p)
  }

  /** Thread t has joined its queue, before or behind all others, which keep their order. */
  ghost predicate Joined(d0: seq<Domain>, th: Thread, t: nat, atFront: bool, d1: seq<Domain>) {
    var q := QueueOf(d0, th);
    Requeues(d0, d1, th.domain, th.prio, if atFront then [t] + q else q + [t])
  }

  /** Thread t has left its queue; the others keep their order. */
  ghost predicate Left(d0: seq<Domain>, th: Thread, t: nat, d1: seq<Domain>) {
    Requeues(d0, d1, th.domain, th.prio, Drop(QueueOf(d0, th), t))
  }

  lemma ChosenFacts(before: map<nat, Thread>, d0: seq<Domain>, after: map<nat, Thread>, d1: seq<Domain>, d: nat, t: nat)
    requires Chosen(before, d0, after, d1, d, t)
    ensures !Queued(after, t) && after.Keys == before.Keys
    ensures forall x | x in before && x != t :: after[x] == before[x]
    ensures t in before ==> before[t].domain == d && First(QueueOf(d0, before[t])) == t
  {
  }

  /** Thread t has left its queue, if it was in one, for the front of that of its new priority. */
  ghost predicate Moved(before: map<nat, Thread>, d0: seq<Domain>, t: nat, prio: nat, d1: seq<Domain>) {
    && t in before
    && exists left :: && (if before[t].queued then Left(d0, before[t], t, left) else left == d0)
                      && Joined(left, before[t].(prio := prio), t, true, d1)
  }

  lemma HasMoved(before: map<nat, Thread>, d0: seq<Domain>, t: nat, th: Thread, left: seq<Domain>, d1: seq<Domain>)
    requires t in before && th == before[t].(prio := th.prio, queued := true) && Joined(left, th, t, true, d1)
    requires if before[t].queued then Left(d0, before[t], t, left) else left == d0
    ensures Moved(before, d0, t, th.prio, d1)
  {
    hide Requeues, Left;
    assert Joined(left, before[t].(prio := th.prio), t, true, d1);
  }

  /** Thread t is behind all others of its queue, or where it was if it was queued. */
  ghost predicate Appended(threads: map<nat, Thread>, d0: seq<Domain>, t: nat, d1: seq<Domain>) {
    t in threads && if threads[t].queued then d1 == d0 else Joined(d0, threads[t], t, false, d1)
  }

  /** A thread that was set aside has gone to the front of its queue, and nothing else has changed. */
  ghost predicate Rescheduled(before: map<nat, Thread>, d0: seq<Domain>, action: Action,
                              after: map<nat, Thread>, d1: seq<Domain>) {
    match action
    case SwitchTo(t) =>
      t in before && after == before[t := before[t].(queued := true)] && Joined(d0, before[t], t, true, d1)
    case _ => after == before && d1 == d0
  }

  /** A current thread that can go on is put in its queue, at the front, unless it is there already. */
  ghost predicate Entered(threads: map<nat, Thread>, d0: seq<Domain>, cur: nat, d1: seq<Domain>) {
    if Runs(threads, cur) && !threads[cur].queued
    then Joined(d0, threads[cur], cur, true, d1)
    else d1 == d0
  }

  function Kept(threads: map<nat, Thread>, cur: nat): map<nat, Thread> {
    if Runs(threads, cur) then threads[cur := threads[cur].(queued := true)] else threads
  }

  /** Thread t has joined its queue, and then a choice was made. */
  ghost predicate Deferred(threads: map<nat, Thread>, d0: seq<Domain>, t: nat, atFront: bool,
                           after: map<nat, Thread>, d1: seq<Domain>, d: nat, next: nat) {
    && t in threads
    && exists mid :: && Joined(d0, threads[t], t, atFront, mid)
                     && Chosen(threads[t := threads[t].(queued := true)], mid, after, d1, d, next)
  }

  /**
   * What schedule does once the current thread is in its queue. A thread that was set aside is queued before the
   * others of its priority if something outranks it, and behind them if it ties with the current thread; otherwise it
   * is taken, and every queue stays as it is.
   */
  ghost predicate Decided(threads: map<nat, Thread>, d0: seq<Domain>, domain: nat, cur: nat, action: Action,
                          after: map<nat, Thread>, d1: seq<Domain>, d: nat, next: nat) {
    match action
    case ResumeCurrent => false
    case ChooseNew => Chosen(threads, d0, after, d1, d, next)
    case SwitchTo(t) =>
      t in threads &&
      var th := threads[t];
      if (cur !in threads || th.prio < threads[cur].prio) && !NoneAbove(threads, domain, th.prio) then
        Deferred(threads, d0, t, true, after, d1, d, next)
      else if Runs(threads, cur) && th.prio == threads[cur].prio then
        Deferred(threads, d0, t, false, after, d1, d, next)
      else
        next == t && after == threads && d1 == d0 && d == domain
  }

  lemma EnteredFacts(before: map<nat, Thread>, d0: seq<Domain>, cur: nat, threads: map<nat, Thread>, d1: seq<Domain>)
    requires threads == if Runs(before, cur) then before[cur := before[cur].(queued := true)] else before
    requires if Runs(before, cur) && !before[cur].queued then Joined(d0, threads[cur], cur, true, d1) else d1 == d0
    ensures Entered(before, d0, cur, d1) && threads == Kept(before, cur)
    ensures Runs(before, cur) && !Queued(before, cur) ==> First(QueueOf(d1, threads[cur])) == cur
  {
  }

  lemma ChooseNewDecides(threads: map<nat, Thread>, d0: seq<Domain>, domain: nat, cur: nat,
                         after: map<nat, Thread>, d1: seq<Domain>, d: nat, next: nat)
    requires Chosen(threads, d0, after, d1, d, next)
    ensures Decided(threads, d0, domain, cur, ChooseNew, after, d1, d, next)
  {
  }

  lemma ChosenFromQueue(threads: map<nat, Thread>, d0: seq<Domain>, domain: nat, cur: nat, mid: seq<Domain>,
                        after: map<nat, Thread>, d1: seq<Domain>, d: nat, next: nat)
    requires Queued(threads, cur) && Entered(threads, d0, cur, mid)
    requires Decided(Kept(threads, cur), mid, domain, cur, ChooseNew, after, d1, d, next)
    ensures Chosen(threads, d0, after, d1, d, next)
  {
    assert threads[cur := threads[cur].(queued := true)] == threads;
  }

  lemma RequeueIsExact(domains: seq<Domain>, th: Thread, q: seq<nat>)
    requires th.domain < |domains| && th.prio < PRIORITIES && DomainOk(domains[th.domain])
    ensures Requeues(domains, Requeued(domains, th, q), th.domain, th.prio, q)
  {
  }

  /** t was first in its queue, which it has left, in the domain d; or there is no thread t, and nothing changed. */
  ghost predicate Chosen(before: map<nat, Thread>, d0: seq<Domain>, after: map<nat, Thread>, d1: seq<Domain>,
                         d: nat, t: nat) {
    if t in before
    then && before[t].queued && before[t].domain == d && after == before[t := before[t].(queued := false)]
         && QueueOf(d0, before[t]) == [t] + QueueOf(d1, before[t])
         && Requeues(d0, d1, before[t].domain, before[t].prio, QueueOf(d1, before[t]))
    else after == before && d1 == d0
  }

  /** The thread goes to the end of its queue, and the first thread of that queue takes its place. */
  ghost predicate Rotates(before: map<nat, Thread>, d0: seq<Domain>, t: nat,
                          after: map<nat, Thread>, d1: seq<Domain>, next: nat) {
    && t in before && next in before && after == Turned(before, t, next)
    && QueueOf(d0, before[t]) + [t] == [next] + QueueOf(d1, before[t])
    && Requeues(d0, d1, before[t].domain, before[t].prio, QueueOf(d1, before[t]))
  }

  function Turned(threads: map<nat, Thread>, t: nat, next: nat): map<nat, Thread>
    requires t in threads && next in threads
  {
    var queued := threads[t := threads[t].(queued := true)];
    queued[next := queued[next].(queued := false)]
  }

  /** With the thread at the back of its queue and nothing above it, the front of that queue is chosen. */
  lemma AfterSlice(before: map<nat, Thread>, d0: seq<Domain>, queued: map<nat, Thread>, after: map<nat, Thread>,
                   queues: seq<Domain>, left: seq<Domain>, d: nat, t: nat, chosen: nat)
    requires t in before && before[t].domain == d && NoneAbove(before, d, before[t].prio)
    requires queued == before[t := before[t].(queued := true)]
    requires Requeues(d0, queues, before[t].domain, before[t].prio, QueueOf(d0, before[t]) + [t])
    requires Chosen(queued, queues, after, left, d, chosen) && Best(after, d, chosen)
    ensures Rotates(before, d0, t, after, left, chosen)
  {
    assert Ready(queued, d, t);
    if chosen != t {
      assert Ready(after, d, t);
      assert chosen in queued;
      assert Ready(before, d, chosen);
    }
    assert queued[chosen].prio == before[t].prio;
  }

  /** The current thread and those in its queue, in order, all of them able to run. */
  predicate InRing(threads: map<nat, Thread>, domains: seq<Domain>, cur: nat) {
    && cur in threads && !threads[cur].queued && threads[cur].runnable
    && forall x | x in QueueOf(domains, threads[cur]) ::
         x in threads && threads[x] == threads[x].(prio := threads[cur].prio, domain := threads[cur].domain,
                                                   queued := true, runnable := true)
  }

  /** After i slices it is the turn of the thread i places on, and the others wait in the order of the ring. */
  ghost predicate AtTurn(t0: map<nat, Thread>, d0: seq<Domain>, c0: nat, i: nat,
                         t1: map<nat, Thread>, d1: seq<Domain>, c1: nat) {
    && InRing(t0, d0, c0) && c1 in t0 && t1 == Turned(t0, c0, c1)
    && var ring := [c0] + QueueOf(d0, t0[c0]);
       && i <= |ring| && [c1] + QueueOf(d1, t0[c0]) == ring[i..] + ring[..i]
       && Requeues(d0, d1, t0[c0].domain, t0[c0].prio, QueueOf(d1, t0[c0]))
  }

  lemma TurnStarts(threads: map<nat, Thread>, domains: seq<Domain>, cur: nat)
    requires Consistent(threads, domains) && cur in threads && !threads[cur].queued && threads[cur].runnable
    requires forall x | x in QueueOf(domains, threads[cur]) :: Runs(threads, x)
    ensures AtTurn(threads, domains, cur, 0, threads, domains, cur)
  {
    var th := threads[cur];
    assert ThreadOk(threads, domains, cur);
    assert QueueOk(threads, th.domain, th.prio, domains[th.domain].queues[th.prio]);
    var ring := [cur] + QueueOf(domains, th);
    assert ring[0..] + ring[..0] == ring;
    assert threads == Turned(threads, cur, cur);
  }

  lemma TurnInSlice(t0: map<nat, Thread>, d0: seq<Domain>, c0: nat, i: nat,
                    t1: map<nat, Thread>, d1: seq<Domain>, c1: nat)
    requires AtTurn(t0, d0, c0, i, t1, d1, c1) && NoneAbove(t0, t0[c0].domain, t0[c0].prio)
    ensures c1 in t1 && !t1[c1].queued && t1[c1].runnable && t1[c1].domain == t0[c0].domain
    ensures NoneAbove(t1, t1[c1].domain, t1[c1].prio)
  {
    hide Requeues;
    InTheRing(t0, d0, c0, i, d1, c1);
    forall x | Ready(t1, t1[c1].domain, x) ensures t1[x].prio <= t1[c1].prio {
      assert x == c0 || Ready(t0, t0[c0].domain, x);
    }
  }

  /** Whose turn it is, is a thread of the ring. */
  lemma InTheRing(t0: map<nat, Thread>, d0: seq<Domain>, c0: nat, i: nat, d1: seq<Domain>, c1: nat)
    requires InRing(t0, d0, c0)
    requires var ring := [c0] + QueueOf(d0, t0[c0]);
             i <= |ring| && [c1] + QueueOf(d1, t0[c0]) == ring[i..] + ring[..i]
    ensures c1 == c0 || c1 in QueueOf(d0, t0[c0])
    ensures var ring := [c0] + QueueOf(d0, t0[c0]); c1 == if i < |ring| then ring[i] else ring[0]
  {
    var ring := [c0] + QueueOf(d0, t0[c0]);
    assert c1 == ([c1] + QueueOf(d1, t0[c0]))[0] == (ring[i..] + ring[..i])[0];
  }

  lemma TurnGoesOn(t0: map<nat, Thread>, d0: seq<Domain>, c0: nat, i: nat, t1: map<nat, Thread>, d1: seq<Domain>,
                   c1: nat, t2: map<nat, Thread>, d2: seq<Domain>, c2: nat)
    requires AtTurn(t0, d0, c0, i, t1, d1, c1) && i < |[c0] + QueueOf(d0, t0[c0])|
    requires Rotates(t1, d1, c1, t2, d2, c2)
    ensures AtTurn(t0, d0, c0, i + 1, t2, d2, c2)
    ensures var ring := [c0] + QueueOf(d0, t0[c0]); (ring + ring)[1..i + 2] == (ring + ring)[1..i + 1] + [c2]
  {
    var th, ring := t0[c0], [c0] + QueueOf(d0, t0[c0]);
    InTheRing(t0, d0, c0, i, d1, c1);
    assert t1[c1].domain == th.domain && t1[c1].prio == th.prio;
    assert QueueOf(d1, th) + [c1] == [c2] + QueueOf(d2, th);
    RingTurns(ring, i, c1, QueueOf(d1, th));
    InTheRing(t0, d0, c0, i + 1, d2, c2);
    RequeuesTwice(d0, d1, d2, th, t1[c1]);
    assert c1 != c0 ==> t0[c1].queued;
    TurnedTwice(t0, c0, c1, c2);
    hide Requeues, InRing, Turned;
    NextOfRing(ring, i, c2);
  }

  lemma NextOfRing(ring: seq<nat>, i: nat, c: nat)
    requires i < |ring| && c == if i + 1 < |ring| then ring[i + 1] else ring[0]
    ensures (ring + ring)[1..i + 2] == (ring + ring)[1..i + 1] + [c]
  {
    var twice := ring + ring;
    assert twice[i + 1] == c;
    assert twice[1..i + 2] == twice[1..i + 1] + [twice[i + 1]];
  }

  lemma RingTurns(ring: seq<nat>, i: nat, c: nat, rest: seq<nat>)
    requires i < |ring| && [c] + rest == ring[i..] + ring[..i]
    ensures rest + [c] == ring[i + 1..] + ring[..i + 1]
  {
    assert c == ([c] + rest)[0] == ring[i];
    assert rest == ([c] + rest)[1..] == ring[i + 1..] + ring[..i];
    assert ring[..i + 1] == ring[..i] + [c];
  }

  lemma RequeuesTwice(d0: seq<Domain>, d1: seq<Domain>, d2: seq<Domain>, a: Thread, b: Thread)
    requires a.domain == b.domain && a.prio == b.prio
    requires Requeues(d0, d1, a.domain, a.prio, QueueOf(d1, a)) && Requeues(d1, d2, b.domain, b.prio, QueueOf(d2, b))
    ensures Requeues(d0, d2, a.domain, a.prio, QueueOf(d2, a))
  {
  }

  lemma TurnedTwice(t0: map<nat, Thread>, a: nat, b: nat, c: nat)
    requires a in t0 && b in t0 && c in t0 && !t0[a].queued && (b != a ==> t0[b].queued)
    ensures Turned(Turned(t0, a, b), b, c) == Turned(t0, a, c)
  {
  }

  lemma TurnEnds(t0: map<nat, Thread>, d0: seq<Domain>, c0: nat, t1: map<nat, Thread>, d1: seq<Domain>, c1: nat)
    requires InRing(t0, d0, c0) && AtTurn(t0, d0, c0, |[c0] + QueueOf(d0, t0[c0])|, t1, d1, c1)
    ensures c1 == c0 && t1 == t0 && forall d: nat, p: nat :: QueueAt(d1, d, p) == QueueAt(d0, d, p)
    ensures var ring := [c0] + QueueOf(d0, t0[c0]); (ring + ring)[1..|ring| + 1] == QueueOf(d0, t0[c0]) + [c0]
  {
    var ring := [c0] + QueueOf(d0, t0[c0]);
    InTheRing(t0, d0, c0, |ring|, d1, c1);
    assert ring[|ring|..] + ring[..|ring|] == ring;
    assert QueueOf(d1, t0[c0]) == ([c1] + QueueOf(d1, t0[c0]))[1..] == ring[1..];
    assert Turned(t0, c0, c0) == t0;
  }

  lemma PriorityKeeps(threads: map<nat, Thread>, domains: seq<Domain>, t: nat, prio: nat)
    requires Consistent(threads, domains) && t in threads && !threads[t].queued && prio < PRIORITIES
    ensures Consistent(threads[t := threads[t].(prio := prio)], domains)
  {
    hide DomainOk, Distinct;
    var after := threads[t := threads[t].(prio := prio)];
    forall d, p | 0 <= d < |domains| && 0 <= p < |domains[d].queues|
      ensures QueueOk(after, d, p, domains[d].queues[p])
    {
      assert QueueOk(threads, d, p, domains[d].queues[p]);
    }
    forall x | x in after
      ensures ThreadOk(after, domains, x)
    {
      assert ThreadOk(threads, domains, x);
    }
  }

  /** What possibleSwitchTo guarantees of the thread it sets aside. */
  predicate Candidate(threads: map<nat, Thread>, d: nat, cur: nat, t: nat) {
    t in threads && t != cur && threads[t].runnable && !threads[t].queued && threads[t].domain == d
  }

  predicate Runs(threads: map<nat, Thread>, t: nat) {
    t in threads && threads[t].runnable
  }

  predicate Queued(threads: map<nat, Thread>, t: nat) {
    t in threads && threads[t].queued
  }

  /** The current thread and the candidate have the same priority, and nothing ready outranks them. */
  ghost predicate Ties(threads: map<nat, Thread>, d: nat, cur: nat, candidate: nat) {
    && Runs(threads, cur) && candidate in threads && threads[cur].domain == d
    && threads[cur].prio == threads[candidate].prio && NoneAbove(threads, d, threads[cur].prio)
  }

  /** The current thread is at the front of its queue, so in a tie the choice falls on it. */
  lemma TieGoesToCurrent(before: map<nat, Thread>, threads: map<nat, Thread>, d0: seq<Domain>,
                         after: map<nat, Thread>, d1: seq<Domain>, d: nat, cur: nat, candidate: nat, chosen: nat)
    requires Ties(before, d, cur, candidate) && before[candidate].domain == d && candidate != cur
    requires threads == before[cur := before[cur].(queued := true)] && First(QueueOf(d0, threads[cur])) == cur
    requires Deferred(threads, d0, candidate, false, after, d1, d, chosen) && Best(after, d, chosen) && cur != 0
    ensures chosen == cur
  {
    var queued := threads[candidate := threads[candidate].(queued := true)];
    var mid :| Joined(d0, threads[candidate], candidate, false, mid) && Chosen(queued, mid, after, d1, d, chosen);
    var q := QueueOf(d0, threads[candidate]);
    assert q != [] && First(q + [candidate]) == cur;
    assert Ready(queued, d, cur) && Ready(queued, d, candidate);
    var other := if chosen == cur then candidate else cur;
    assert Ready(after, d, other);
    assert chosen in queued && queued[chosen].prio == queued[candidate].prio;
    assert QueueOf(mid, queued[chosen]) == QueueOf(mid, queued[candidate]) == q + [candidate];
  }

  /** The candidate is taken without a look at the bitmap. */
  predicate Skips(threads: map<nat, Thread>, cur: nat, candidate: nat)
    requires candidate in threads
  {
    && cur in threads && threads[cur].prio <= threads[candidate].prio
    && !(threads[cur].runnable && threads[cur].prio == threads[candidate].prio)
  }

  /** When the selection is right: always, except that resuming and skipping the bitmap rely on what is ready. */
  ghost predicate Safe(threads: map<nat, Thread>, d: nat, cur: nat, action: Action) {
    match action
    case ResumeCurrent => Best(threads, d, cur)
    case ChooseNew => true
    case SwitchTo(t) => t in threads && (Skips(threads, cur, t) ==> NoneAbove(threads, d, threads[t].prio))
  }

  lemma BestIsSafe(threads: map<nat, Thread>, d: nat, cur: nat, action: Action)
    requires action.SwitchTo? ==> action.thread in threads
    ensures Best(threads, d, cur) ==> Safe(threads, d, cur, action)
  {
  }

  /** Switching to the candidate is right exactly if nothing ready outranks it; the current thread does not. */
  lemma SkipIsExact(before: map<nat, Thread>, threads: map<nat, Thread>, d: nat, cur: nat, t: nat)
    requires Candidate(before, d, cur, t)
    requires threads == if Runs(before, cur) then before[cur := before[cur].(queued := true)] else before
    requires Skips(before, cur, t) || NoneAbove(threads, d, threads[t].prio)
    ensures var after := threads[t := threads[t].(queued := false)];
            && (Best(after, d, t) <==> NoneAbove(threads, d, threads[t].prio))
            && (Skips(before, cur, t) ==>
                  (NoneAbove(threads, d, threads[t].prio) <==> NoneAbove(before, d, before[t].prio)))
  {
    var after := threads[t := threads[t].(queued := false)];
    assert forall x :: Ready(after, d, x) <==> Ready(threads, d, x);
    assert forall x :: Ready(threads, d, x) && x != cur ==> Ready(before, d, x);
    assert forall x :: Ready(before, d, x) ==> Ready(threads, d, x);
  }

  lemma PrependFacts(q: seq<nat>, t: nat)
    requires Distinct(q) && t !in q
    ensures Distinct([t] + q) && forall x :: x in [t] + q <==> x == t || x in q
  {
  }

  lemma AppendFacts(q: seq<nat>, t: nat)
    requires Distinct(q) && t !in q
    ensures Distinct(q + [t]) && forall x :: x in q + [t] <==> x == t || x in q
  {
  }

  lemma RemoveFacts(q: seq<nat>, t: nat)
    requires Distinct(q) && t in q
    ensures Distinct(Drop(q, t)) && forall x :: x in Drop(q, t) <==> x != t && x in q
  {
    hide Distinct, Drop, Without;
    var k :| 0 <= k < |q| && q[k] == t;
    DropIsWithout(q, k);
    WithoutFacts(q, k);
  }

  lemma DomainPart(threads: map<nat, Thread>, domains: seq<Domain>, d: nat)
    requires Consistent(threads, domains) && d < |domains|
    ensures DomainOk(domains[d])
  {
  }

  lemma HighestReady(threads: map<nat, Thread>, domains: seq<Domain>, d: nat, p: nat)
    requires Consistent(threads, domains) && d < |domains| && IsHighest(domains[d], p)
    ensures NoneAbove(threads, d, p)
    ensures var t := domains[d].queues[p][0];
            && t in threads && threads[t].prio == p && threads[t].domain == d && threads[t].queued
            && t == First(QueueOf(domains, threads[t]))
  {
    hide DomainOk, Distinct;
    QueuesAbove(threads, domains, d, p);
    var q := domains[d].queues[p];
    assert QueueOk(threads, d, p, q);
    assert q[0] in q;
  }

  lemma NothingReady(threads: map<nat, Thread>, domains: seq<Domain>, d: nat)
    requires Consistent(threads, domains) && d < |domains| && domains[d].l1 == 0
    ensures forall x :: !Ready(threads, d, x)
  {
    hide Distinct;
    forall x
      ensures !Ready(threads, d, x)
    {
      if Ready(threads, d, x) {
        ReadyIsQueued(threads, domains, d, x);
        OccupiedBits(domains[d], threads[x].prio);
      }
    }
  }

  /** Taking a thread out of the queues leaves no thread above it if there was none. */
  lemma BestAfter(before: map<nat, Thread>, after: map<nat, Thread>, d: nat, t: nat)
    requires t in before && NoneAbove(before, d, before[t].prio)
    requires after == before[t := before[t].(queued := false)]
    ensures Best(after, d, t)
  {
    forall x | Ready(after, d, x)
      ensures after[x].prio <= after[t].prio
    {
      assert Ready(before, d, x);
    }
  }
}
