/** Endpoints and notifications: which threads wait where, and which signals have been delivered. */
module Ipc {
  import opened EpQueue

  /** A badge word, as the set of its bits; bitwise or is union. */
  type Badge = set<nat>

  datatype EpState = EpIdle | EpSend | EpRecv

  datatype Endpoint = Endpoint(state: EpState, queue: seq<nat>)

  datatype NtfnState = NtfnIdle | NtfnWaiting | NtfnActive

  /** bound: the thread that takes signals while it waits for a message; 0 for none. */
  datatype Notification = Notification(state: NtfnState, queue: seq<nat>, badge: Badge, bound: nat)

  datatype ThreadState =
    | Inactive
    | Running
    | Restart
    | OnSend(ep: nat, msg: Badge, canGrant: bool, canGrantReply: bool, isCall: bool)
    | OnReceive(ep: nat, hasReply: bool)
    | OnNotification(ntfn: nat)
    | OnReply

  /** badge: the badge register; fault: the thread has a fault to report. */
  datatype Tcb = Tcb(state: ThreadState, badge: Badge, bound: nat, fault: bool)

  datatype State = State(threads: map<nat, Tcb>, endpoints: map<nat, Endpoint>, ntfns: map<nat, Notification>)

  predicate IsQueued(ts: ThreadState) {
    ts.OnSend? || ts.OnReceive? || ts.OnNotification?
  }

  /** A thread in the queue of endpoint e is blocked there, in the endpoint's direction. */
  predicate WaitsAt(ts: ThreadState, e: nat, st: EpState) {
    (st == EpSend && ts.OnSend? && ts.ep == e) || (st == EpRecv && ts.OnReceive? && ts.ep == e)
  }

  // ------------------------------------------------------------------ the invariant

  /** Idle exactly if nobody waits; who waits is blocked here, once, in priority order. */
  predicate EndpointOk(s: State, prio: Priorities, e: nat)
    requires e in s.endpoints
  {
    var ep := s.endpoints[e];
    && (ep.state == EpIdle <==> ep.queue == [])
    && Distinct(ep.queue) && Ordered(prio, ep.queue)
    && forall t :: t in ep.queue ==> t in s.threads && WaitsAt(s.threads[t].state, e, ep.state)
  }

  /** Waiting exactly if somebody waits; and if a thread is bound, it is bound to this notification. */
  predicate NotificationOk(s: State, prio: Priorities, n: nat)
    requires n in s.ntfns
  {
    var nt := s.ntfns[n];
    && (nt.state == NtfnWaiting <==> nt.queue != [])
    && Distinct(nt.queue) && Ordered(prio, nt.queue)
    && (forall t :: t in nt.queue ==> t in s.threads && s.threads[t].state == OnNotification(n))
    && (nt.bound != 0 ==> nt.bound in s.threads && s.threads[nt.bound].bound == n)
  }

  /** A blocked thread is in the queue of what it is blocked on, and a binding is mutual. */
  predicate ThreadOk(s: State, t: nat)
    requires t in s.threads
  {
    && InItsQueue(s, t)
    && (s.threads[t].bound != 0 ==> s.threads[t].bound in s.ntfns && s.ntfns[s.threads[t].bound].bound == t)
  }

  predicate InItsQueue(s: State, t: nat)
    requires t in s.threads
  {
    match s.threads[t].state
    case OnSend(e, _, _, _, _) => e in s.endpoints && t in s.endpoints[e].queue
    case OnReceive(e, _) => e in s.endpoints && t in s.endpoints[e].queue
    case OnNotification(n) => n in s.ntfns && t in s.ntfns[n].queue
    case _ => true
  }

  predicate Inv(s: State, prio: Priorities) {
    && 0 !in s.threads
    && (forall e :: e in s.endpoints ==> EndpointOk(s, prio, e))
    && (forall n :: n in s.ntfns ==> NotificationOk(s, prio, n))
    && (forall t :: t in s.threads ==> ThreadOk(s, t))
  }

  // ------------------------------------------------------------------ queues without or with another thread

  lemma DropFacts(prio: Priorities, q: seq<nat>, t: nat)
    requires Distinct(q) && Ordered(prio, q) && t in q
    ensures Distinct(Drop(q, t)) && Ordered(prio, Drop(q, t))
    ensures forall x :: x in Drop(q, t) <==> x in q && x != t
  {
    hide Distinct, Ordered, Drop, Without;
    var k :| 0 <= k < |q| && q[k] == t;
    DropIsWithout(q, k);
    WithoutKeepsOrder(prio, q, k);
    WithoutFacts(q, k);
  }

  lemma InsertFacts(prio: Priorities, q: seq<nat>, t: nat)
    requires Distinct(q) && Ordered(prio, q) && t !in q
    ensures Distinct(Insert(prio, q, t)) && Ordered(prio, Insert(prio, q, t)) && Insert(prio, q, t) != []
    ensures forall x :: x in Insert(prio, q, t) <==> x in q || x == t
  {
    hide Distinct, Ordered, Position, InsertAt;
    InsertKeepsOrder(prio, q, t);
    InsertAtFacts(q, Position(prio, q, t), t);
    InsertedLength(q, Position(prio, q, t), t);
  }

  // ------------------------------------------------------------------ blocking and waking

  function WithState(s: State, t: nat, ts: ThreadState): State
    requires t in s.threads
  {
    State(s.threads[t := s.threads[t].(state := ts)], s.endpoints, s.ntfns)
  }

  function WithBadge(s: State, t: nat, badge: Badge): State
    requires t in s.threads
  {
    State(s.threads[t := s.threads[t].(badge := badge)], s.endpoints, s.ntfns)
  }

  function EpWithout(ep: Endpoint, t: nat): Endpoint {
    var q := Drop(ep.queue, t);
    Endpoint(if q == [] then EpIdle else ep.state, q)
  }

  function NtfnWithout(n: Notification, t: nat): Notification {
    var q := Drop(n.queue, t);
    Notification(if q == [] then NtfnIdle else n.state, q, n.badge, n.bound)
  }

  function LeaveEndpoint(s: State, t: nat, ts: ThreadState, e: nat): State
    requires t in s.threads && e in s.endpoints
  {
    State(s.threads[t := s.threads[t].(state := ts)], s.endpoints[e := EpWithout(s.endpoints[e], t)], s.ntfns)
  }

  function LeaveNotification(s: State, t: nat, ts: ThreadState, n: nat): State
    requires t in s.threads && n in s.ntfns
  {
    State(s.threads[t := s.threads[t].(state := ts)], s.endpoints, s.ntfns[n := NtfnWithout(s.ntfns[n], t)])
  }

  /** Takes a blocked thread out of its queue and puts it in the state ts. */
  function Wake(s: State, t: nat, ts: ThreadState): State
    requires t in s.threads && IsQueued(s.threads[t].state) && InItsQueue(s, t)
  {
    var was := s.threads[t].state;
    if was.OnNotification? then LeaveNotification(s, t, ts, was.ntfn) else LeaveEndpoint(s, t, ts, was.ep)
  }

  /** Puts a thread in the state ts and into the queue that ts names. */
  function Block(s: State, prio: Priorities, t: nat, ts: ThreadState): State
    requires t in s.threads && IsQueued(ts)
    requires if ts.OnNotification? then ts.ntfn in s.ntfns else ts.ep in s.endpoints
  {
    if ts.OnNotification? then
      WithState(s, t, ts).(ntfns := s.ntfns[ts.ntfn := s.ntfns[ts.ntfn].(
          state := NtfnWaiting, queue := Insert(prio, s.ntfns[ts.ntfn].queue, t))])
    else
      WithState(s, t, ts).(endpoints := s.endpoints[ts.ep := Endpoint(
          if ts.OnSend? then EpSend else EpRecv, Insert(prio, s.endpoints[ts.ep].queue, t))])
  }

  lemma Parts(s: State, prio: Priorities)
    requires Inv(s, prio)
    ensures 0 !in s.threads
  {
  }

  lemma Assemble(s: State, prio: Priorities)
    requires 0 !in s.threads
    requires forall e :: e in s.endpoints ==> EndpointOk(s, prio, e)
    requires forall n :: n in s.ntfns ==> NotificationOk(s, prio, n)
    requires forall t :: t in s.threads ==> ThreadOk(s, t)
    ensures Inv(s, prio)
  {
  }

  lemma EndpointPart(s: State, prio: Priorities, e: nat)
    requires Inv(s, prio) && e in s.endpoints
    ensures EndpointOk(s, prio, e)
  {
  }

  lemma NotificationPart(s: State, prio: Priorities, n: nat)
    requires Inv(s, prio) && n in s.ntfns
    ensures NotificationOk(s, prio, n)
  {
  }

  lemma ThreadPart(s: State, prio: Priorities, t: nat)
    requires Inv(s, prio) && t in s.threads
    ensures ThreadOk(s, t)
  {
  }

  /** A thread that is not blocked is in no queue. */
  lemma NotQueued(s: State, prio: Priorities, t: nat)
    requires Inv(s, prio) && t in s.threads && !IsQueued(s.threads[t].state)
    ensures forall e :: e in s.endpoints ==> t !in s.endpoints[e].queue
    ensures forall n :: n in s.ntfns ==> t !in s.ntfns[n].queue
  {
    hide Distinct, Ordered;
    forall e | e in s.endpoints
      ensures t !in s.endpoints[e].queue
    {
      assert EndpointOk(s, prio, e);
    }
    forall n | n in s.ntfns
      ensures t !in s.ntfns[n].queue
    {
      assert NotificationOk(s, prio, n);
    }
  }

  /** Changing the state or the badge of a thread that is in no queue disturbs nothing. */
  lemma UnqueuedKeepsInv(s: State, prio: Priorities, t: nat, tcb: Tcb)
    requires Inv(s, prio) && t in s.threads && !IsQueued(s.threads[t].state) && !IsQueued(tcb.state)
    requires tcb.bound == s.threads[t].bound
    ensures Inv(s.(threads := s.threads[t := tcb]), prio)
  {
    hide Inv, Distinct, Ordered;
    Parts(s, prio);
    NotQueued(s, prio, t);
    var r := s.(threads := s.threads[t := tcb]);
    forall e | e in r.endpoints ensures EndpointOk(r, prio, e) { EndpointPart(s, prio, e); }
    forall n | n in r.ntfns ensures NotificationOk(r, prio, n) { NotificationPart(s, prio, n); }
    forall x | x in r.threads ensures ThreadOk(r, x) { ThreadPart(s, prio, x); }
    Assemble(r, prio);
  }

  lemma LeaveEndpointKeepsInv(s: State, prio: Priorities, t: nat, ts: ThreadState, e: nat)
    requires Inv(s, prio) && t in s.threads && !IsQueued(ts) && e in s.endpoints && t in s.endpoints[e].queue
    ensures Inv(LeaveEndpoint(s, t, ts, e), prio)
  {
    hide Inv, Distinct, Ordered, Drop;
    Parts(s, prio);
    var r := LeaveEndpoint(s, t, ts, e);
    EndpointPart(s, prio, e);
    DropFacts(prio, s.endpoints[e].queue, t);
    forall f | f in r.endpoints ensures EndpointOk(r, prio, f) { EndpointPart(s, prio, f); }
    forall n | n in r.ntfns ensures NotificationOk(r, prio, n) { NotificationPart(s, prio, n); }
    forall x | x in r.threads ensures ThreadOk(r, x) { ThreadPart(s, prio, x); }
    Assemble(r, prio);
  }

  lemma LeaveNotificationKeepsInv(s: State, prio: Priorities, t: nat, ts: ThreadState, n: nat)
    requires Inv(s, prio) && t in s.threads && !IsQueued(ts) && n in s.ntfns && t in s.ntfns[n].queue
    ensures Inv(LeaveNotification(s, t, ts, n), prio)
  {
    hide Inv, Distinct, Ordered, Drop;
    Parts(s, prio);
    var r := LeaveNotification(s, t, ts, n);
    NotificationPart(s, prio, n);
    DropFacts(prio, s.ntfns[n].queue, t);
    forall e | e in r.endpoints ensures EndpointOk(r, prio, e) { EndpointPart(s, prio, e); }
    forall m | m in r.ntfns ensures NotificationOk(r, prio, m) { NotificationPart(s, prio, m); }
    forall x | x in r.threads ensures ThreadOk(r, x) { ThreadPart(s, prio, x); }
    Assemble(r, prio);
  }

  /** Waking a blocked thread keeps the invariant. */
  lemma WakeKeepsInv(s: State, prio: Priorities, t: nat, ts: ThreadState)
    requires Inv(s, prio) && t in s.threads && IsQueued(s.threads[t].state) && !IsQueued(ts)
    ensures InItsQueue(s, t) && Inv(Wake(s, t, ts), prio)
  {
    hide Inv, LeaveEndpoint, LeaveNotification;
    ThreadPart(s, prio, t);
    var was := s.threads[t].state;
    if was.OnNotification? {
      LeaveNotificationKeepsInv(s, prio, t, ts, was.ntfn);
    } else {
      LeaveEndpointKeepsInv(s, prio, t, ts, was.ep);
    }
  }

  /** Where a thread may block: a notification without a signal, or an endpoint not used in the other direction. */
  predicate MayBlock(s: State, ts: ThreadState) {
    match ts
    case OnSend(e, _, _, _, _) => e in s.endpoints && s.endpoints[e].state != EpRecv
    case OnReceive(e, _) => e in s.endpoints && s.endpoints[e].state != EpSend
    case OnNotification(n) => n in s.ntfns && s.ntfns[n].state != NtfnActive
    case _ => false
  }

  lemma BlockEndpoint(s: State, prio: Priorities, t: nat, ts: ThreadState, e: nat)
    requires Inv(s, prio) && t in s.threads && !IsQueued(s.threads[t].state) && MayBlock(s, ts) && e in s.endpoints
    ensures EndpointOk(Block(s, prio, t, ts), prio, e)
  {
    hide Inv, Distinct, Ordered, Insert;
    NotQueued(s, prio, t);
    EndpointPart(s, prio, e);
    InsertFacts(prio, s.endpoints[e].queue, t);
  }

  lemma BlockNotification(s: State, prio: Priorities, t: nat, ts: ThreadState, n: nat)
    requires Inv(s, prio) && t in s.threads && !IsQueued(s.threads[t].state) && MayBlock(s, ts) && n in s.ntfns
    ensures NotificationOk(Block(s, prio, t, ts), prio, n)
  {
    hide Inv, Distinct, Ordered, Insert;
    NotQueued(s, prio, t);
    NotificationPart(s, prio, n);
    InsertFacts(prio, s.ntfns[n].queue, t);
  }

  lemma BlockThread(s: State, prio: Priorities, t: nat, ts: ThreadState, x: nat)
    requires Inv(s, prio) && t in s.threads && !IsQueued(s.threads[t].state) && MayBlock(s, ts) && x in s.threads
    ensures ThreadOk(Block(s, prio, t, ts), x)
  {
    hide Inv, Distinct, Ordered, Insert;
    NotQueued(s, prio, t);
    ThreadPart(s, prio, t);
    ThreadPart(s, prio, x);
    if ts.OnNotification? {
      NotificationPart(s, prio, ts.ntfn);
      InsertFacts(prio, s.ntfns[ts.ntfn].queue, t);
    } else {
      EndpointPart(s, prio, ts.ep);
      InsertFacts(prio, s.endpoints[ts.ep].queue, t);
    }
  }

  /** Blocking a thread keeps the invariant. */
  lemma BlockKeepsInv(s: State, prio: Priorities, t: nat, ts: ThreadState)
    requires Inv(s, prio) && t in s.threads && !IsQueued(s.threads[t].state) && MayBlock(s, ts)
    ensures Inv(Block(s, prio, t, ts), prio)
  {
    hide EndpointOk, NotificationOk, ThreadOk;
    Parts(s, prio);
    var r := Block(s, prio, t, ts);
    forall e | e in r.endpoints ensures EndpointOk(r, prio, e) { BlockEndpoint(s, prio, t, ts, e); }
    forall n | n in r.ntfns ensures NotificationOk(r, prio, n) { BlockNotification(s, prio, t, ts, n); }
    forall x | x in r.threads ensures ThreadOk(r, x) { BlockThread(s, prio, t, ts, x); }
  }
}
