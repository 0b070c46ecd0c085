/** What cancelling, signalling and changing a priority mean to the thread concerned, and to all others. */
module IpcEffects {
  import opened EpQueue
  import opened Ipc
  import opened IpcSystem
  import opened IpcOrder

  /** The others of a queue, in their order. */
  function Excluding(q: seq<nat>, t: nat): seq<nat> {
    if q == [] then [] else (if q[0] == t then [] else [q[0]]) + Excluding(q[1..], t)
  }

  lemma {:induction false} NothingExcluded(q: seq<nat>, t: nat)
    requires t !in q
    ensures Excluding(q, t) == q
  {
    if q != [] { NothingExcluded(q[1..], t); }
  }

  lemma {:induction false} DropExcludes(q: seq<nat>, t: nat)
    requires Distinct(q)
    ensures Drop(q, t) == Excluding(q, t)
  {
    if q != [] {
      TailDistinct(q);
      if q[0] == t { NothingExcluded(q[1..], t); } else { DropExcludes(q[1..], t); }
    }
  }

  lemma {:induction false} ExcludingConcat(a: seq<nat>, b: seq<nat>, t: nat)
    ensures Excluding(a + b, t) == Excluding(a, t) + Excluding(b, t)
  {
    if a == [] {
      assert a + b == b;
    } else {
      assert (a + b)[1..] == a[1..] + b;
      ExcludingConcat(a[1..], b, t);
    }
  }

  lemma ExcludeOne(a: seq<nat>, t: nat, b: seq<nat>)
    requires t !in a && t !in b
    ensures Excluding(a + [t] + b, t) == a + b
  {
    assert [t][1..] == [] && Excluding([t], t) == [];
    hide Excluding;
    ExcludingConcat(a + [t], b, t);
    ExcludingConcat(a, [t], t);
    NothingExcluded(a, t);
    NothingExcluded(b, t);
  }

  /** Joining a queue and leaving it again changes nothing. */
  lemma DropUndoesInsert(prio: Priorities, q: seq<nat>, t: nat)
    requires Distinct(q) && t !in q
    ensures Drop(Insert(prio, q, t), t) == q
  {
    var k := Position(prio, q, t);
    InsertAtFacts(q, k, t);
    hide Position, Distinct, Drop, Excluding;
    DropExcludes(Insert(prio, q, t), t);
    ExcludeOne(q[..k], t, q[k..]);
    assert q[..k] + q[k..] == q;
  }

  // ------------------------------------------------------------------ cancelling

  /** Every endpoint and notification is without the thread; those who wait there keep their order. */
  predicate LeftBy(s: State, r: State, t: nat) {
    && r.endpoints.Keys == s.endpoints.Keys && r.ntfns.Keys == s.ntfns.Keys
    && (forall e | e in s.endpoints :: r.endpoints[e].queue == Excluding(s.endpoints[e].queue, t))
    && (forall n | n in s.ntfns ::
          && r.ntfns[n].queue == Excluding(s.ntfns[n].queue, t)
          && r.ntfns[n].badge == s.ntfns[n].badge && r.ntfns[n].bound == s.ntfns[n].bound
          && (r.ntfns[n].state == NtfnActive <==> s.ntfns[n].state == NtfnActive))
  }

  lemma WithoutIt(q: seq<nat>, t: nat)
    requires Distinct(q)
    ensures Drop(q, t) == Excluding(q, t) && (t !in q ==> Excluding(q, t) == q)
  {
    DropExcludes(q, t);
    if t !in q { NothingExcluded(q, t); }
  }

  /** In the queue of an endpoint are only threads that wait there. */
  lemma OnlyHere(s: State, prio: Priorities, t: nat, e: nat)
    requires Inv(s, prio) && t in s.threads && e in s.endpoints
    ensures Distinct(s.endpoints[e].queue)
    ensures t in s.endpoints[e].queue ==> (s.threads[t].state.OnSend? || s.threads[t].state.OnReceive?)
                                          && s.threads[t].state.ep == e
  {
    EndpointPart(s, prio, e);
  }

  lemma OnlyThere(s: State, prio: Priorities, t: nat, n: nat)
    requires Inv(s, prio) && t in s.threads && n in s.ntfns
    ensures Distinct(s.ntfns[n].queue)
    ensures t in s.ntfns[n].queue ==> s.threads[t].state == OnNotification(n) && s.ntfns[n].state == NtfnWaiting
  {
    NotificationPart(s, prio, n);
  }

  lemma LeavesEndpoint(s: State, prio: Priorities, t: nat, ts: ThreadState, e: nat)
    requires Inv(s, prio) && t in s.threads && e in s.endpoints
    requires (s.threads[t].state.OnSend? || s.threads[t].state.OnReceive?) && s.threads[t].state.ep == e
    ensures LeftBy(s, LeaveEndpoint(s, t, ts, e), t)
  {
    hide Inv, Drop, Distinct, Excluding;
    forall f | f in s.endpoints
      ensures var q := s.endpoints[f].queue; Excluding(q, t) == if f == e then Drop(q, t) else q
    {
      OnlyHere(s, prio, t, f);
      WithoutIt(s.endpoints[f].queue, t);
    }
    forall n | n in s.ntfns ensures Excluding(s.ntfns[n].queue, t) == s.ntfns[n].queue {
      OnlyThere(s, prio, t, n);
      WithoutIt(s.ntfns[n].queue, t);
    }
  }

  lemma LeavesNotification(s: State, prio: Priorities, t: nat, ts: ThreadState, n: nat)
    requires Inv(s, prio) && t in s.threads && n in s.ntfns && s.threads[t].state == OnNotification(n)
    requires t in s.ntfns[n].queue
    ensures LeftBy(s, LeaveNotification(s, t, ts, n), t)
  {
    hide Inv, Drop, Distinct, Excluding;
    forall f | f in s.endpoints ensures Excluding(s.endpoints[f].queue, t) == s.endpoints[f].queue {
      OnlyHere(s, prio, t, f);
      WithoutIt(s.endpoints[f].queue, t);
    }
    OnlyThere(s, prio, t, n);
    forall x | x in s.ntfns
      ensures Excluding(s.ntfns[x].queue, t) == if x == n then Drop(s.ntfns[x].queue, t) else s.ntfns[x].queue
    {
      OnlyThere(s, prio, t, x);
      WithoutIt(s.ntfns[x].queue, t);
    }
  }

  /** A thread that wakes up waits nowhere, and those it waited with keep their order. */
  lemma WakeLeaves(s: State, prio: Priorities, t: nat, ts: ThreadState)
    requires Inv(s, prio) && t in s.threads && IsQueued(s.threads[t].state) && InItsQueue(s, t)
    ensures var r := Wake(s, t, ts); LeftBy(s, r, t) && r.threads == s.threads[t := s.threads[t].(state := ts)]
  {
    hide Inv, LeftBy;
    var was := s.threads[t].state;
    if was.OnNotification? {
      LeavesNotification(s, prio, t, ts, was.ntfn);
    } else {
      LeavesEndpoint(s, prio, t, ts, was.ep);
    }
  }

  /** A thread that waits for nothing is in no queue to leave. */
  lemma NothingToLeave(s: State, prio: Priorities, t: nat)
    requires Inv(s, prio) && t in s.threads && !IsQueued(s.threads[t].state)
    ensures LeftBy(s, s, t)
  {
    NotQueued(s, prio, t);
    hide Inv, Excluding;
    forall e | e in s.endpoints ensures s.endpoints[e].queue == Excluding(s.endpoints[e].queue, t) {
      NothingExcluded(s.endpoints[e].queue, t);
    }
    forall n | n in s.ntfns ensures s.ntfns[n].queue == Excluding(s.ntfns[n].queue, t) {
      NothingExcluded(s.ntfns[n].queue, t);
    }
  }

  /** A cancelled thread has no fault, waits nowhere and, if it was waiting, has stopped; nobody else notices. */
  lemma CancelledEffect(s: State, prio: Priorities, t: nat)
    requires Inv(s, prio) && t in s.threads
    ensures var r, was := Cancelled(s, prio, t), s.threads[t];
            && r.threads.Keys == s.threads.Keys && LeftBy(s, r, t)
            && r.threads[t] == was.(fault := false,
                                    state := if IsQueued(was.state) || was.state.OnReply? then Inactive else was.state)
            && forall x | x in s.threads && x != t :: r.threads[x] == s.threads[x]
  {
    hide Inv, Wake, Excluding;
    WithoutFaultKeepsInv(s, prio, t);
    var c := WithoutFault(s, t);
    if IsQueued(s.threads[t].state) { WakeLeaves(c, prio, t, Inactive); } else { NothingToLeave(s, prio, t); }
  }

  /** What it means to wait at an endpoint. */
  lemma BlockAt(s: State, prio: Priorities, t: nat, wait: ThreadState)
    requires t in s.threads && (wait.OnSend? || wait.OnReceive?) && wait.ep in s.endpoints
    ensures var b, e := Block(s, prio, t, wait), wait.ep;
            && b.threads == s.threads[t := s.threads[t].(state := wait)] && b.ntfns == s.ntfns
            && b.endpoints == s.endpoints[e := Endpoint(if wait.OnSend? then EpSend else EpRecv,
                                                        Insert(prio, s.endpoints[e].queue, t))]
  {
    hide Insert;
  }

  lemma CancelledAt(b: State, prio: Priorities, t: nat, e: nat)
    requires Inv(b, prio) && t in b.threads && (b.threads[t].state.OnSend? || b.threads[t].state.OnReceive?)
    requires b.threads[t].state.ep == e && e in b.endpoints
    ensures Cancelled(b, prio, t) ==
            State(b.threads[t := b.threads[t].(state := Inactive, fault := false)],
                  b.endpoints[e := EpWithout(b.endpoints[e], t)], b.ntfns)
  {
    hide Inv, EpWithout;
    WithoutFaultKeepsInv(b, prio, t);
    var c := Cancelled(b, prio, t);
    assert c.threads == b.threads[t := b.threads[t].(state := Inactive, fault := false)];
  }

  /** Cancelling undoes a wait, except that the thread has stopped. */
  lemma CancelUndoesBlock(s: State, prio: Priorities, t: nat, wait: ThreadState)
    requires Inv(s, prio) && t in s.threads && !IsQueued(s.threads[t].state)
    requires (wait.OnSend? || wait.OnReceive?) && MayBlock(s, wait)
    ensures var b := Block(s, prio, t, wait);
            && Inv(b, prio) && t in b.threads
            && Cancelled(b, prio, t) == s.(threads := s.threads[t := s.threads[t].(state := Inactive, fault := false)])
  {
    hide Inv, Insert, Drop, Distinct, Ordered, Block, Cancelled;
    var e, b := wait.ep, Block(s, prio, t, wait);
    BlockKeepsInv(s, prio, t, wait);
    BlockAt(s, prio, t, wait);
    EndpointPart(s, prio, e);
    NotQueued(s, prio, t);
    DropUndoesInsert(prio, s.endpoints[e].queue, t);
    CancelledAt(b, prio, t, e);
    assert EpWithout(b.endpoints[e], t) == s.endpoints[e];
    hide EpWithout;
    assert b.endpoints[e := s.endpoints[e]] == s.endpoints;
  }

  /** In particular a send that waits. */
  lemma CancelUndoesSend(s: State, prio: Priorities, e: nat, m: Message)
    requires Inv(s, prio) && m.from in s.threads && !IsQueued(s.threads[m.from].state) && e in s.endpoints
    requires s.endpoints[e].state != EpRecv
    ensures var sent := SendOne(s, prio, e, m);
            && Inv(sent, prio) && m.from in sent.threads
            && Cancelled(sent, prio, m.from) ==
               s.(threads := s.threads[m.from := s.threads[m.from].(state := Inactive, fault := false)])
  {
    hide Inv, Block, Cancelled;
    CancelUndoesBlock(s, prio, m.from, Waiting(m, e));
  }

  lemma CancelUndoesReceive(s: State, prio: Priorities, e: nat, r: Receiver)
    requires Inv(s, prio) && r.t in s.threads && !IsQueued(s.threads[r.t].state) && e in s.endpoints
    requires s.endpoints[e].state != EpSend
    ensures var ready := ReceiveOne(s, prio, e, r);
            && Inv(ready, prio) && r.t in ready.threads
            && Cancelled(ready, prio, r.t) ==
               s.(threads := s.threads[r.t := s.threads[r.t].(state := Inactive, fault := false)])
  {
    hide Inv, Block, Cancelled;
    CancelUndoesBlock(s, prio, r.t, OnReceive(e, r.hasReply));
  }

  // ------------------------------------------------------------------ signals

  /**
   * A signal wakes one thread, which runs with its badge: the first that waits for the notification, or else the
   * bound one if it waits for a message. Without such a thread the notification keeps the badge.
   */
  lemma SignalEffect(s: State, prio: Priorities, n: nat, badge: Badge)
    requires Inv(s, prio) && n in s.ntfns
    ensures var r, nt := Signalled(s, prio, n, badge), s.ntfns[n];
            var bound := nt.state == NtfnIdle && nt.bound in s.threads && s.threads[nt.bound].state.OnReceive?;
            && r.threads.Keys == s.threads.Keys
            && (nt.state == NtfnWaiting || bound ==>
                  var t := if bound then nt.bound else First(nt.queue);
                  && t in s.threads && LeftBy(s, r, t)
                  && r.threads[t] == s.threads[t].(state := Running, badge := badge,
                                                   fault := !bound && s.threads[t].fault)
                  && forall x | x in s.threads && x != t :: r.threads[x] == s.threads[x])
            && (nt.state != NtfnWaiting && !bound ==>
                  && r.threads == s.threads && r.endpoints == s.endpoints
                  && r.ntfns == s.ntfns[n := nt.(state := NtfnActive,
                                                 badge := (if nt.state == NtfnActive then nt.badge else {}) + badge)])
  {
    hide Inv, Wake, Excluding, InItsQueue;
    TakerWaits(s, prio, n);
    BoundIn(s, prio, n);
    if s.ntfns[n].state == NtfnWaiting { WaiterIn(s, prio, n); }
    var t := Taker(s, n);
    if t != 0 { WakeLeaves(s, prio, t, Running); }
    assert {} + badge == badge;
  }

  // ------------------------------------------------------------------ priorities and badges

  /** A thread whose priority changes while it waits comes behind the others of its new priority. */
  lemma ReorderedIsLast(prio: Priorities, q: seq<nat>, t: nat, p: nat)
    requires Distinct(q) && t in q
    ensures OfPriority(prio, Insert(prio, Drop(q, t), t), p) == OfPriority(prio, Excluding(q, t) + [t], p)
  {
    DropExcludes(q, t);
    InsertIsStable(prio, Drop(q, t), t, p);
  }

  /** What cancelBadgedSends leaves of a queue is decided thread by thread. */
  lemma {:induction false} OthersIsFilter(threads: map<nat, Tcb>, a: seq<nat>, b: seq<nat>, badge: Badge)
    ensures Others(threads, a + b, badge) == Others(threads, a, badge) + Others(threads, b, badge)
    ensures forall x :: Others(threads, [x], badge) ==
                        if x in threads && threads[x].state.OnSend? && threads[x].state.msg == badge then [] else [x]
    decreases |b|
  {
    assert forall x: nat :: [x][..0] == [];
    if b == [] {
      assert a + b == a;
    } else {
      var c := b[..|b| - 1];
      assert (a + b)[..|a + b| - 1] == a + c;
      OthersIsFilter(threads, a, c, badge);
    }
  }
}
