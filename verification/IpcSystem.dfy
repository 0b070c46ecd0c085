/** The operations on endpoints and notifications, and the account of every signal sent. */
module IpcSystem {
  import opened EpQueue
  import opened Ipc

  // ------------------------------------------------------------------ signals

  function OrAll(s: seq<Badge>): Badge {
    if s == [] then {} else OrAll(s[..|s| - 1]) + s[|s| - 1]
  }

  function Flatten(groups: seq<seq<Badge>>): seq<Badge> {
    if groups == [] then [] else Flatten(groups[..|groups| - 1]) + groups[|groups| - 1]
  }

  /** The signals sent to a notification, the groups in which they were delivered, and those not yet delivered. */
  datatype Log = Log(sent: seq<Badge>, groups: seq<seq<Badge>>, pending: seq<Badge>)

  /** Every signal sent is delivered once or pending, in order; an active notification holds the pending badges. */
  predicate LogOk(n: Notification, l: Log) {
    && l.sent == Flatten(l.groups) + l.pending
    && (n.state == NtfnActive <==> l.pending != [])
    && (n.state == NtfnActive ==> n.badge == OrAll(l.pending))
  }

  function Held(l: Log, badge: Badge): Log {
    Log(l.sent + [badge], l.groups, l.pending + [badge])
  }

  function HandedOver(l: Log, badge: Badge): Log {
    Log(l.sent + [badge], l.groups + [[badge]], l.pending)
  }

  function Collected(l: Log): Log {
    Log(l.sent, l.groups + [l.pending], [])
  }

  lemma OrAppend(s: seq<Badge>, b: Badge)
    ensures OrAll(s + [b]) == OrAll(s) + b
  {
    var r := s + [b];
    assert r[..|r| - 1] == s && r[|r| - 1] == b;
  }

  lemma OrNothing(b: Badge)
    ensures OrAll([]) + b == b
  {
  }

  lemma HeldOk(n: Notification, l: Log, badge: Badge)
    requires LogOk(n, l)
    ensures LogOk(n.(state := NtfnActive, badge := if n.state == NtfnActive then n.badge + badge else badge),
                  Held(l, badge))
  {
    hide OrAll, Flatten;
    OrAppend(l.pending, badge);
    OrNothing(badge);
    assert l.sent + [badge] == Flatten(l.groups) + (l.pending + [badge]);
  }

  lemma HandedOverOk(n: Notification, l: Log, badge: Badge, n': Notification)
    requires LogOk(n, l) && n.state != NtfnActive && n'.state != NtfnActive
    ensures LogOk(n', HandedOver(l, badge))
  {
    var g := l.groups + [[badge]];
    assert g[..|g| - 1] == l.groups;
  }

  lemma CollectedOk(n: Notification, l: Log, n': Notification)
    requires LogOk(n, l) && n.state == NtfnActive && n'.state == NtfnIdle
    ensures LogOk(n', Collected(l))
  {
    var g := l.groups + [l.pending];
    assert g[..|g| - 1] == l.groups;
  }

  // ------------------------------------------------------------------ specifications

  /** What sending does: hand over to the first receiver, or block, or nothing. */
  function Sent(s: State, prio: Priorities, blocking: bool, call: bool, badge: Badge, grant: bool, grantReply: bool,
                t: nat, e: nat): State
    requires Inv(s, prio) && t in s.threads && !IsQueued(s.threads[t].state) && e in s.endpoints
  {
    if s.endpoints[e].state == EpRecv then
      HeadWaits(s, prio, e);
      var dest := s.endpoints[e].queue[0];
      var s1 := WithBadge(Wake(s, dest, Running), dest, badge);
      if call || s.threads[t].fault then
        WithState(s1, t, if s.threads[dest].state.hasReply && (grant || grantReply) then OnReply else Inactive)
      else
        s1
    else if blocking then Block(s, prio, t, OnSend(e, badge, grant, grantReply, call))
    else s
  }

  lemma HeadWaits(s: State, prio: Priorities, e: nat)
    requires Inv(s, prio) && e in s.endpoints && s.endpoints[e].state != EpIdle
    ensures var h := First(s.endpoints[e].queue);
            && s.endpoints[e].queue != [] && h in s.threads && InItsQueue(s, h)
            && WaitsAt(s.threads[h].state, e, s.endpoints[e].state)
  {
    hide Distinct, Ordered;
    EndpointPart(s, prio, e);
    var h := First(s.endpoints[e].queue);
    assert h in s.endpoints[e].queue;
    ThreadPart(s, prio, h);
  }

  lemma SentKeepsInv(s: State, prio: Priorities, blocking: bool, call: bool, badge: Badge, grant: bool,
                     grantReply: bool, t: nat, e: nat)
    requires Inv(s, prio) && t in s.threads && !IsQueued(s.threads[t].state) && e in s.endpoints
    ensures Inv(Sent(s, prio, blocking, call, badge, grant, grantReply, t, e), prio)
  {
    hide Inv, Distinct, Ordered, Drop, Insert;
    if s.endpoints[e].state == EpRecv {
      HeadWaits(s, prio, e);
      var dest := s.endpoints[e].queue[0];
      WakeKeepsInv(s, prio, dest, Running);
      var w := Wake(s, dest, Running);
      UnqueuedKeepsInv(w, prio, dest, w.threads[dest].(badge := badge));
      var s1 := WithBadge(w, dest, badge);
      var ts := if s.threads[dest].state.hasReply && (grant || grantReply) then OnReply else Inactive;
      UnqueuedKeepsInv(s1, prio, t, s1.threads[t].(state := ts));
    } else if blocking {
      BlockKeepsInv(s, prio, t, OnSend(e, badge, grant, grantReply, call));
    }
  }

  /** What receiving does when no signal is pending: take the first sender's message, or block, or report nothing. */
  function Received(s: State, prio: Priorities, blocking: bool, hasReply: bool, t: nat, e: nat): State
    requires Inv(s, prio) && t in s.threads && !IsQueued(s.threads[t].state) && e in s.endpoints
  {
    if s.endpoints[e].state == EpSend then
      HeadWaits(s, prio, e);
      var sender := s.endpoints[e].queue[0];
      var was := s.threads[sender].state;
      var ts := if was.isCall || s.threads[sender].fault
                then if (was.canGrant || was.canGrantReply) && hasReply then OnReply else Inactive
                else Running;
      WithBadge(Wake(s, sender, ts), t, was.msg)
    else if blocking then Block(s, prio, t, OnReceive(e, hasReply))
    else WithBadge(s, t, {})
  }

  lemma ReceivedKeepsInv(s: State, prio: Priorities, blocking: bool, hasReply: bool, t: nat, e: nat)
    requires Inv(s, prio) && t in s.threads && !IsQueued(s.threads[t].state) && e in s.endpoints
    ensures Inv(Received(s, prio, blocking, hasReply, t, e), prio)
  {
    hide Inv, Distinct, Ordered, Drop, Insert;
    if s.endpoints[e].state == EpSend {
      HeadWaits(s, prio, e);
      var sender := s.endpoints[e].queue[0];
      var was := s.threads[sender].state;
      var ts := if was.isCall || s.threads[sender].fault
                then if (was.canGrant || was.canGrantReply) && hasReply then OnReply else Inactive
                else Running;
      WakeKeepsInv(s, prio, sender, ts);
      var w := Wake(s, sender, ts);
      UnqueuedKeepsInv(w, prio, t, w.threads[t].(badge := was.msg));
    } else if blocking {
      BlockKeepsInv(s, prio, t, OnReceive(e, hasReply));
    } else {
      UnqueuedKeepsInv(s, prio, t, s.threads[t].(badge := {}));
    }
  }

  /** The state after one message from t to r through an endpoint nobody else uses. */
  function Exchanged(s: State, call: bool, badge: Badge, grant: bool, grantReply: bool, hasReply: bool,
                     t: nat, r: nat): State
    requires t in s.threads && r in s.threads
  {
    var ts :=
      if !call && !s.threads[t].fault then Running
      else if hasReply && (grant || grantReply) then OnReply else Inactive;
    State(s.threads[t := s.threads[t].(state := ts)][r := s.threads[r].(badge := badge)], s.endpoints, s.ntfns)
  }

  /** A thread that blocks on an endpoint nobody else uses is alone in its queue. */
  lemma BlockAlone(s: State, prio: Priorities, t: nat, wait: ThreadState)
    requires t in s.threads && (wait.OnSend? || wait.OnReceive?)
    requires wait.ep in s.endpoints && s.endpoints[wait.ep] == Endpoint(EpIdle, [])
    ensures var b := Block(s, prio, t, wait);
            && b.threads == s.threads[t := s.threads[t].(state := wait)]
            && b.endpoints == s.endpoints[wait.ep := Endpoint(if wait.OnSend? then EpSend else EpRecv, [t])]
            && b.ntfns == s.ntfns && InItsQueue(b, t)
  {
    SoloQueue(prio, t);
    hide Insert;
  }

  /** Waking that thread leaves the endpoint as it was. */
  lemma WakeUndoesBlock(s: State, prio: Priorities, t: nat, wait: ThreadState, ts: ThreadState)
    requires t in s.threads && (wait.OnSend? || wait.OnReceive?)
    requires wait.ep in s.endpoints && s.endpoints[wait.ep] == Endpoint(EpIdle, [])
    ensures var b := Block(s, prio, t, wait);
            && t in b.threads && IsQueued(b.threads[t].state) && InItsQueue(b, t)
            && Wake(b, t, ts) == WithState(s, t, ts)
  {
    SoloQueue(prio, t);
    BlockAlone(s, prio, t, wait);
    hide Block, Drop;
    var w := Wake(Block(s, prio, t, wait), t, ts);
    assert w.threads == s.threads[t := s.threads[t].(state := ts)];
    assert w.endpoints == s.endpoints;
  }

  lemma SenderFirst(s: State, prio: Priorities, blocking: bool, call: bool, badge: Badge,
                    grant: bool, grantReply: bool, hasReply: bool, t: nat, r: nat, e: nat)
    requires Inv(s, prio) && t in s.threads && r in s.threads && t != r
    requires s.threads[t].state == Running && s.threads[r].state == Running
    requires e in s.endpoints && s.endpoints[e].state == EpIdle
    ensures var sent := Sent(s, prio, true, call, badge, grant, grantReply, t, e);
            && Inv(sent, prio)
            && Received(sent, prio, blocking, hasReply, r, e) ==
               Exchanged(s, call, badge, grant, grantReply, hasReply, t, r)
  {
    hide Inv, Distinct, Ordered, Block, Wake, Drop, Insert;
    EndpointPart(s, prio, e);
    SentKeepsInv(s, prio, true, call, badge, grant, grantReply, t, e);
    var wait := OnSend(e, badge, grant, grantReply, call);
    BlockAlone(s, prio, t, wait);
    WakeUndoesBlock(s, prio, t, wait, Exchanged(s, call, badge, grant, grantReply, hasReply, t, r).threads[t].state);
  }

  lemma ReceiverFirst(s: State, prio: Priorities, blocking: bool, call: bool, badge: Badge,
                      grant: bool, grantReply: bool, hasReply: bool, t: nat, r: nat, e: nat)
    requires Inv(s, prio) && t in s.threads && r in s.threads && t != r
    requires s.threads[t].state == Running && s.threads[r].state == Running
    requires e in s.endpoints && s.endpoints[e].state == EpIdle
    ensures var ready := Received(s, prio, true, hasReply, r, e);
            && Inv(ready, prio)
            && Sent(ready, prio, blocking, call, badge, grant, grantReply, t, e)
            == Exchanged(s, call, badge, grant, grantReply, hasReply, t, r)
  {
    hide Inv, Distinct, Ordered, Block, Wake, Drop, Insert;
    EndpointPart(s, prio, e);
    ReceivedKeepsInv(s, prio, true, hasReply, r, e);
    BlockAlone(s, prio, r, OnReceive(e, hasReply));
    WakeUndoesBlock(s, prio, r, OnReceive(e, hasReply), Running);
  }

  /** It does not matter who comes first: sender and receiver end up the same. */
  lemma RendezvousEitherOrder(s: State, prio: Priorities, blocking: bool, call: bool, badge: Badge,
                              grant: bool, grantReply: bool, hasReply: bool, t: nat, r: nat, e: nat)
    requires Inv(s, prio) && t in s.threads && r in s.threads && t != r
    requires s.threads[t].state == Running && s.threads[r].state == Running
    requires e in s.endpoints && s.endpoints[e].state == EpIdle
    ensures var sent := Sent(s, prio, true, call, badge, grant, grantReply, t, e);
            var ready := Received(s, prio, true, hasReply, r, e);
            && Inv(sent, prio) && Inv(ready, prio)
            && Received(sent, prio, blocking, hasReply, r, e)
            == Sent(ready, prio, blocking, call, badge, grant, grantReply, t, e)
  {
    hide Inv, Exchanged;
    SenderFirst(s, prio, blocking, call, badge, grant, grantReply, hasReply, t, r, e);
    ReceiverFirst(s, prio, blocking, call, badge, grant, grantReply, hasReply, t, r, e);
    hide Sent, Received;
  }

  lemma SoloQueue(prio: Priorities, t: nat)
    ensures Insert(prio, [], t) == [t] && Drop([t], t) == []
  {
  }

  function WithoutFault(s: State, t: nat): State
    requires t in s.threads
  {
    State(s.threads[t := s.threads[t].(fault := false)], s.endpoints, s.ntfns)
  }

  lemma WithoutFaultKeepsInv(s: State, prio: Priorities, t: nat)
    requires Inv(s, prio) && t in s.threads
    ensures Inv(WithoutFault(s, t), prio) && InItsQueue(WithoutFault(s, t), t)
  {
    hide Inv, Distinct, Ordered;
    Parts(s, prio);
    ThreadPart(s, prio, t);
    var r := WithoutFault(s, t);
    forall e | e in r.endpoints ensures EndpointOk(r, prio, e) { EndpointPart(s, prio, e); }
    forall n | n in r.ntfns ensures NotificationOk(r, prio, n) { NotificationPart(s, prio, n); }
    forall x | x in r.threads ensures ThreadOk(r, x) { ThreadPart(s, prio, x); }
    Assemble(r, prio);
  }

  /** What cancelling a thread's operation does: its fault is forgotten in every state, and it waits for nothing. */
  function Cancelled(s: State, prio: Priorities, t: nat): State
    requires Inv(s, prio) && t in s.threads
  {
    var c := WithoutFault(s, t);
    if IsQueued(c.threads[t].state) then
      WithoutFaultKeepsInv(s, prio, t);
      Wake(c, t, Inactive)
    else if c.threads[t].state.OnReply? then WithState(c, t, Inactive)
    else c
  }

  lemma CancelledKeepsInv(s: State, prio: Priorities, t: nat)
    requires Inv(s, prio) && t in s.threads
    ensures Inv(Cancelled(s, prio, t), prio)
  {
    WithoutFaultKeepsInv(s, prio, t);
    var c := WithoutFault(s, t);
    hide Inv, WithoutFault;
    if IsQueued(c.threads[t].state) {
      WakeKeepsInv(c, prio, t, Inactive);
    } else {
      UnqueuedKeepsInv(c, prio, t, c.threads[t].(state := Inactive));
    }
  }

  /** Changing state and badge of a notification nobody waits on. */
  lemma NotificationKeepsInv(s: State, prio: Priorities, n: nat, nt: Notification)
    requires Inv(s, prio) && n in s.ntfns && s.ntfns[n].state != NtfnWaiting
    requires nt.state != NtfnWaiting && nt.queue == s.ntfns[n].queue && nt.bound == s.ntfns[n].bound
    ensures Inv(State(s.threads, s.endpoints, s.ntfns[n := nt]), prio)
  {
    hide Inv, Distinct, Ordered;
    Parts(s, prio);
    var r := State(s.threads, s.endpoints, s.ntfns[n := nt]);
    forall e | e in r.endpoints ensures EndpointOk(r, prio, e) { EndpointPart(s, prio, e); }
    forall m | m in r.ntfns ensures NotificationOk(r, prio, m) {
      NotificationPart(s, prio, m);
      NotificationPart(s, prio, n);
    }
    forall x | x in r.threads ensures ThreadOk(r, x) { ThreadPart(s, prio, x); }
    Assemble(r, prio);
  }

  // ------------------------------------------------------------------ changing a priority

  /** The thread goes to its new place in the queue it waits in. */
  function Reordered(s: State, prio: Priorities, t: nat): State
    requires t in s.threads && InItsQueue(s, t)
  {
    match s.threads[t].state
    case OnSend(e, _, _, _, _) => s.(endpoints := s.endpoints[e := EpReordered(s.endpoints[e], prio, t)])
    case OnReceive(e, _) => s.(endpoints := s.endpoints[e := EpReordered(s.endpoints[e], prio, t)])
    case OnNotification(n) => s.(ntfns := s.ntfns[n := NtfnReordered(s.ntfns[n], prio, t)])
    case _ => s
  }

  function EpReordered(ep: Endpoint, prio: Priorities, t: nat): Endpoint {
    ep.(queue := Insert(prio, Drop(ep.queue, t), t))
  }

  function NtfnReordered(n: Notification, prio: Priorities, t: nat): Notification {
    n.(queue := Insert(prio, Drop(n.queue, t), t))
  }

  /** With another priority of t, a queue is in order again once t is taken out and put in. */
  lemma QueueReordered(prio: Priorities, q: seq<nat>, t: nat, p: nat)
    requires Distinct(q) && Ordered(prio, q)
    ensures t !in q ==> Ordered(prio[t := p], q)
    ensures t in q ==>
              var r := Insert(prio[t := p], Drop(q, t), t);
              Distinct(r) && Ordered(prio[t := p], r) && r != [] && forall x :: x in r <==> x in q
  {
    hide Distinct, Ordered, Drop, Insert;
    if t in q {
      DropFacts(prio, q, t);
      OtherPriority(prio, Drop(q, t), t, p);
      InsertFacts(prio[t := p], Drop(q, t), t);
    } else {
      OtherPriority(prio, q, t, p);
    }
  }

  lemma ReorderedKeepsInv(s: State, prio: Priorities, t: nat, p: nat)
    requires Inv(s, prio) && t in s.threads
    ensures InItsQueue(s, t) && Inv(Reordered(s, prio[t := p], t), prio[t := p])
  {
    hide Inv, Distinct, Ordered, Drop, Insert;
    Parts(s, prio);
    ThreadPart(s, prio, t);
    var r := Reordered(s, prio[t := p], t);
    forall e | e in r.endpoints ensures EndpointOk(r, prio[t := p], e) {
      EndpointPart(s, prio, e);
      QueueReordered(prio, s.endpoints[e].queue, t, p);
    }
    forall n | n in r.ntfns ensures NotificationOk(r, prio[t := p], n) {
      NotificationPart(s, prio, n);
      QueueReordered(prio, s.ntfns[n].queue, t, p);
    }
    forall x | x in r.threads ensures ThreadOk(r, x) {
      ReorderedThread(s, prio, t, p, x);
    }
    Assemble(r, prio[t := p]);
  }

  lemma ReorderedThread(s: State, prio: Priorities, t: nat, p: nat, x: nat)
    requires Inv(s, prio) && t in s.threads && InItsQueue(s, t) && x in s.threads
    ensures ThreadOk(Reordered(s, prio[t := p], t), x)
  {
    hide Inv, Distinct, Ordered, Drop, Insert;
    ThreadPart(s, prio, x);
    var ts := s.threads[t].state;
    if ts.OnNotification? {
      NotificationPart(s, prio, ts.ntfn);
      QueueReordered(prio, s.ntfns[ts.ntfn].queue, t, p);
    } else if IsQueued(ts) {
      EndpointPart(s, prio, ts.ep);
      QueueReordered(prio, s.endpoints[ts.ep].queue, t, p);
    }
  }

  // ------------------------------------------------------------------ cancelling many

  /** r is s with the threads of queue q that are not in q' released into states that are in no queue. */
  predicate Released(s: State, r: State, q: seq<nat>, q': seq<nat>) {
    && r.threads.Keys == s.threads.Keys
    && forall x :: x in s.threads ==>
         if x in q && x !in q'
         then !IsQueued(r.threads[x].state) && r.threads[x].bound == s.threads[x].bound
         else r.threads[x] == s.threads[x]
  }

  lemma ReleaseEndpoint(s: State, prio: Priorities, e: nat, q': seq<nat>, r: State)
    requires Inv(s, prio) && e in s.endpoints && Released(s, r, s.endpoints[e].queue, q')
    requires Distinct(q') && Ordered(prio, q') && forall x :: x in q' ==> x in s.endpoints[e].queue
    requires r.ntfns == s.ntfns
    requires r.endpoints == s.endpoints[e := Endpoint(if q' == [] then EpIdle else s.endpoints[e].state, q')]
    ensures Inv(r, prio)
  {
    hide Inv, Distinct, Ordered;
    Parts(s, prio);
    EndpointPart(s, prio, e);
    if q' != [] { assert q'[0] in s.endpoints[e].queue; }
    forall f | f in r.endpoints ensures EndpointOk(r, prio, f) { EndpointPart(s, prio, f); }
    forall n | n in r.ntfns ensures NotificationOk(r, prio, n) { NotificationPart(s, prio, n); }
    forall x | x in r.threads ensures ThreadOk(r, x) { ThreadPart(s, prio, x); }
    Assemble(r, prio);
  }

  lemma ReleaseNotification(s: State, prio: Priorities, n: nat, r: State)
    requires Inv(s, prio) && n in s.ntfns && s.ntfns[n].state == NtfnWaiting && Released(s, r, s.ntfns[n].queue, [])
    requires r.endpoints == s.endpoints
    requires r.ntfns == s.ntfns[n := s.ntfns[n].(state := NtfnIdle, queue := [])]
    ensures Inv(r, prio)
  {
    hide Inv, Distinct, Ordered;
    Parts(s, prio);
    NotificationPart(s, prio, n);
    EmptyQueue(prio);
    forall e | e in r.endpoints ensures EndpointOk(r, prio, e) { EndpointPart(s, prio, e); }
    forall m | m in r.ntfns ensures NotificationOk(r, prio, m) { NotificationPart(s, prio, m); }
    forall x | x in r.threads ensures ThreadOk(r, x) { ThreadPart(s, prio, x); }
    Assemble(r, prio);
  }

  lemma EmptyQueue(prio: Priorities)
    ensures Distinct([]) && Ordered(prio, [])
  {
  }

  /** A released thread restarts its operation unless it has a fault to report. */
  function Restarted(tcb: Tcb): Tcb {
    tcb.(state := if tcb.fault then Inactive else Restart)
  }

  predicate Matches(threads: map<nat, Tcb>, t: nat, badge: Badge) {
    t in threads && threads[t].state.OnSend? && threads[t].state.msg == badge
  }

  /** The threads of q whose message does not carry the badge, in order. */
  function Others(threads: map<nat, Tcb>, q: seq<nat>, badge: Badge): seq<nat> {
    if q == [] then []
    else
      var rest := Others(threads, q[..|q| - 1], badge);
      if Matches(threads, q[|q| - 1], badge) then rest else rest + [q[|q| - 1]]
  }

  lemma AppendLowest(prio: Priorities, q: seq<nat>, t: nat)
    requires Distinct(q) && Ordered(prio, q) && t !in q
    requires forall x :: x in q ==> PriorityOf(prio, x) >= PriorityOf(prio, t)
    ensures Distinct(q + [t]) && Ordered(prio, q + [t])
  {
  }

  lemma SplitLast(prio: Priorities, q: seq<nat>)
    requires Distinct(q) && Ordered(prio, q) && q != []
    ensures var f, l := q[..|q| - 1], q[|q| - 1];
            && Distinct(f) && Ordered(prio, f) && l !in f && q == f + [l]
            && forall x :: x in f ==> PriorityOf(prio, x) >= PriorityOf(prio, l)
  {
  }

  lemma {:induction false} OthersFacts(threads: map<nat, Tcb>, prio: Priorities, q: seq<nat>, badge: Badge)
    requires Distinct(q) && Ordered(prio, q)
    ensures var r := Others(threads, q, badge);
            && Distinct(r) && Ordered(prio, r)
            && forall x :: x in r <==> x in q && !Matches(threads, x, badge)
  {
    hide Distinct, Ordered, Matches, PriorityOf;
    if q == [] {
      EmptyQueue(prio);
    } else {
      var f, l := q[..|q| - 1], q[|q| - 1];
      SplitLast(prio, q);
      OthersFacts(threads, prio, f, badge);
      var r := Others(threads, f, badge);
      assert forall x :: x in q <==> x in f || x == l;
      AppendLowest(prio, r, l);
    }
  }

  // ------------------------------------------------------------------ the kernel's objects

  class Objects {
    var prio: Priorities
    var threads: map<nat, Tcb>
    var endpoints: map<nat, Endpoint>
    var ntfns: map<nat, Notification>
    ghost var log: map<nat, Log>

    /** Any consistent state in which no signal is pending. */
    constructor (prio: Priorities, s: State)
      requires Inv(s, prio) && forall n :: n in s.ntfns ==> s.ntfns[n].state != NtfnActive
      ensures Valid() && View() == s && this.prio == prio
    {
      this.prio := prio;
      threads, endpoints, ntfns := s.threads, s.endpoints, s.ntfns;
      log := map n | n in s.ntfns :: Log([], [], []);
    }

    ghost function View(): State
      reads this
    {
      State(threads, endpoints, ntfns)
    }

    ghost predicate Valid()
      reads this
    {
      && Inv(View(), prio)
      && log.Keys == ntfns.Keys
      && forall n :: n in ntfns ==> LogOk(ntfns[n], log[n])
    }

    /** sendIPC */
    method SendIPC(blocking: bool, call: bool, badge: Badge, grant: bool, grantReply: bool, t: nat, e: nat)
      requires Valid() && t in threads && !IsQueued(threads[t].state) && e in endpoints
      modifies `threads, `endpoints
      ensures Valid()
      ensures View() == Sent(old(View()), prio, blocking, call, badge, grant, grantReply, t, e)
    {
      hide Inv, LogOk, OrAll, Flatten, Insert, Drop;
      ghost var s := View();
      SentKeepsInv(s, prio, blocking, call, badge, grant, grantReply, t, e);
      if endpoints[e].state == EpRecv {
        HeadWaits(s, prio, e);
        HandOver(call, badge, grant, grantReply, t, e);
        assert View() == Sent(s, prio, blocking, call, badge, grant, grantReply, t, e);
      } else if blocking {
        threads := threads[t := threads[t].(state := OnSend(e, badge, grant, grantReply, call))];
        endpoints := endpoints[e := Endpoint(EpSend, Insert(prio, endpoints[e].queue, t))];
      }
    }

    /** The first receiver takes the message and runs; a caller waits for its reply or stops. */
    method HandOver(call: bool, badge: Badge, grant: bool, grantReply: bool, t: nat, e: nat)
      requires t in threads && e in endpoints && endpoints[e].queue != []
      requires var dest := endpoints[e].queue[0]; dest != t && dest in threads && threads[dest].state.OnReceive?
      modifies `threads, `endpoints
      ensures var dest := old(endpoints)[e].queue[0];
              var woken := old(threads)[dest := old(threads)[dest].(badge := badge, state := Running)];
              var ts := if old(threads)[dest].state.hasReply && (grant || grantReply) then OnReply else Inactive;
              && endpoints == old(endpoints)[e := EpWithout(old(endpoints)[e], dest)]
              && threads == if call || old(threads)[t].fault then woken[t := old(threads)[t].(state := ts)] else woken
    {
      var dest := endpoints[e].queue[0];
      DequeueEndpoint(e, dest);
      threads := threads[dest := threads[dest].(badge := badge)];
      if call || threads[t].fault {
        var ts := if threads[dest].state.hasReply && (grant || grantReply) then OnReply else Inactive;
        threads := threads[t := threads[t].(state := ts)];
      }
      threads := threads[dest := threads[dest].(state := Running)];
    }

    /** Takes the thread out of the endpoint's queue, and makes the endpoint idle if it was the last. */
    method DequeueEndpoint(e: nat, t: nat)
      requires e in endpoints
      modifies `endpoints
      ensures endpoints == old(endpoints)[e := EpWithout(old(endpoints)[e], t)]
    {
      var q := Drop(endpoints[e].queue, t);
      endpoints := endpoints[e := Endpoint(endpoints[e].state, q)];
      if q == [] {
        endpoints := endpoints[e := Endpoint(EpIdle, q)];
      }
    }

    method DequeueNotification(n: nat, t: nat)
      requires n in ntfns
      modifies `ntfns
      ensures ntfns == old(ntfns)[n := NtfnWithout(old(ntfns)[n], t)]
    {
      var q := Drop(ntfns[n].queue, t);
      ntfns := ntfns[n := ntfns[n].(queue := q)];
      if q == [] {
        ntfns := ntfns[n := ntfns[n].(state := NtfnIdle)];
      }
    }

    /** receiveIPC: a pending signal of the bound notification comes first. */
    method ReceiveIPC(blocking: bool, hasReply: bool, t: nat, e: nat)
      requires Valid() && t in threads && !IsQueued(threads[t].state) && e in endpoints
      modifies `threads, `endpoints, `ntfns, `log
      ensures Valid()
      ensures var n := old(threads)[t].bound;
              if n != 0 && n in old(ntfns) && old(ntfns)[n].state == NtfnActive
              then Delivered(old(View()), View(), t, n) && log == old(log)[n := Collected(old(log)[n])]
              else View() == Received(old(View()), prio, blocking, hasReply, t, e) && log == old(log)
    {
      hide Inv, LogOk, Insert;
      ghost var s := View();
      ThreadPart(s, prio, t);
      var n := threads[t].bound;
      if n != 0 && ntfns[n].state == NtfnActive {
        CompleteSignal(n, t);
      } else {
        ReceivedKeepsInv(s, prio, blocking, hasReply, t, e);
        if endpoints[e].state == EpSend {
          HeadWaits(s, prio, e);
          TakeMessage(hasReply, t, e);
          assert View() == Received(s, prio, blocking, hasReply, t, e);
        } else if blocking {
          threads := threads[t := threads[t].(state := OnReceive(e, hasReply))];
          endpoints := endpoints[e := Endpoint(EpRecv, Insert(prio, endpoints[e].queue, t))];
        } else {
          threads := threads[t := threads[t].(badge := {})];
        }
      }
    }

    /** The first sender's message is taken; the sender runs, waits for its reply, or stops. */
    method TakeMessage(hasReply: bool, t: nat, e: nat)
      requires t in threads && e in endpoints && endpoints[e].queue != []
      requires var sender := endpoints[e].queue[0]; sender != t && sender in threads && threads[sender].state.OnSend?
      modifies `threads, `endpoints
      ensures var sender := old(endpoints)[e].queue[0];
              var was := old(threads)[sender].state;
              var ts := if was.isCall || old(threads)[sender].fault
                        then if (was.canGrant || was.canGrantReply) && hasReply then OnReply else Inactive
                        else Running;
              && endpoints == old(endpoints)[e := EpWithout(old(endpoints)[e], sender)]
              && threads ==
                 old(threads)[sender := old(threads)[sender].(state := ts)][t := old(threads)[t].(badge := was.msg)]
    {
      var sender := endpoints[e].queue[0];
      DequeueEndpoint(e, sender);
      var was := threads[sender].state;
      threads := threads[t := threads[t].(badge := was.msg)];
      if was.isCall || threads[sender].fault {
        var ts := if (was.canGrant || was.canGrantReply) && hasReply then OnReply else Inactive;
        threads := threads[sender := threads[sender].(state := ts)];
      } else {
        threads := threads[sender := threads[sender].(state := Running)];
      }
    }

    /** completeSignal: the thread gets the badges signalled since the notification became active. */
    method CompleteSignal(n: nat, t: nat)
      requires Valid() && t in threads && !IsQueued(threads[t].state) && n in ntfns && ntfns[n].state == NtfnActive
      modifies `threads, `ntfns, `log
      ensures Valid() && Delivered(old(View()), View(), t, n)
      ensures log == old(log)[n := Collected(old(log)[n])] && threads[t].badge == OrAll(old(log)[n].pending)
    {
      hide Inv, OrAll;
      ghost var s := View();
      CollectedOk(ntfns[n], log[n], ntfns[n].(state := NtfnIdle));
      hide LogOk;
      UnqueuedKeepsInv(s, prio, t, threads[t].(badge := ntfns[n].badge));
      threads := threads[t := threads[t].(badge := ntfns[n].badge)];
      NotificationKeepsInv(View(), prio, n, ntfns[n].(state := NtfnIdle));
      ntfns := ntfns[n := ntfns[n].(state := NtfnIdle)];
      log := log[n := Collected(log[n])];
    }

    /** sendSignal: hand the badge to a waiting thread, or keep it. */
    method SendSignal(n: nat, badge: Badge)
      requires Valid() && n in ntfns
      modifies `threads, `endpoints, `ntfns, `log
      ensures Valid() && View() == Signalled(old(View()), prio, n, badge)
      ensures log.Keys == old(log.Keys) && forall m :: m in log && m != n ==> log[m] == old(log)[m]
      ensures var t := Taker(old(View()), n);
              log[n] == if t == 0 then Held(old(log)[n], badge) else HandedOver(old(log)[n], badge)
    {
      hide Inv, OrAll, LogOk, Held, HandedOver, Taking, WithSignal, InItsQueue;
      BoundIn(View(), prio, n);
      TakerWaits(View(), prio, n);
      if ntfns[n].state == NtfnIdle {
        var t := ntfns[n].bound;
        if t != 0 && threads[t].state.OnReceive? {
          SignalBound(n, t, badge);
        } else {
          HoldSignal(n, badge);
        }
      } else if ntfns[n].state == NtfnWaiting {
        SignalWaiter(n, badge);
      } else {
        HoldSignal(n, badge);
      }
    }

    /** The bound thread waits for a message: it stops waiting and takes the signal instead. */
    method SignalBound(n: nat, t: nat, badge: Badge)
      requires Valid() && n in ntfns && ntfns[n].state == NtfnIdle && t in threads && threads[t].state.OnReceive?
      modifies `threads, `endpoints, `ntfns, `log
      ensures Valid() && log == old(log)[n := HandedOver(old(log)[n], badge)]
      ensures InItsQueue(old(View()), t)
      ensures View() == Taking(old(View()), t, badge, false)
    {
      hide Inv, OrAll, Flatten, LogOk, Taking, InItsQueue, HandedOver;
      HandedOverOk(ntfns[n], log[n], badge, ntfns[n]);
      Interrupt(t, badge);
      log := log[n := HandedOver(log[n], badge)];
    }

    /** A thread that waits for a message stops waiting and runs, with the badge in its register. */
    method Interrupt(t: nat, badge: Badge)
      requires Valid() && t in threads && threads[t].state.OnReceive?
      modifies `threads, `endpoints, `ntfns
      ensures Valid() && ntfns == old(ntfns) && InItsQueue(old(View()), t)
      ensures View() == Taking(old(View()), t, badge, false)
    {
      TakingIsCancelling(View(), prio, t, badge);
      hide Inv, OrAll, Flatten, LogOk, Cancelled, Taking, InItsQueue;
      CancelIPC(t);
      RunWith(t, badge);
    }

    /** The first waiting thread takes the signal. */
    method SignalWaiter(n: nat, badge: Badge)
      requires Valid() && n in ntfns && ntfns[n].state == NtfnWaiting
      modifies `threads, `ntfns, `log
      ensures Valid() && log == old(log)[n := HandedOver(old(log)[n], badge)]
      ensures var t := First(old(ntfns)[n].queue);
              && t in old(threads) && IsQueued(old(threads)[t].state) && InItsQueue(old(View()), t)
              && View() == Taking(old(View()), t, badge, old(threads)[t].fault)
    {
      hide Inv, OrAll, LogOk, Drop;
      ghost var s := View();
      WaiterIn(s, prio, n);
      var t := ntfns[n].queue[0];
      WakeKeepsInv(s, prio, t, Running);
      HandedOverOk(ntfns[n], log[n], badge, NtfnWithout(ntfns[n], t));
      DequeueNotification(n, t);
      threads := threads[t := threads[t].(state := Running)];
      log := log[n := HandedOver(log[n], badge)];
      assert View() == Wake(s, t, Running);
      SetBadge(t, badge);
    }

    /** A thread that waits for nothing runs, with the badge in its register. */
    method RunWith(t: nat, badge: Badge)
      requires Valid() && t in threads && !IsQueued(threads[t].state)
      modifies `threads
      ensures Valid() && threads == old(threads)[t := old(threads)[t].(state := Running, badge := badge)]
    {
      hide Inv, LogOk;
      UnqueuedKeepsInv(View(), prio, t, threads[t].(state := Running));
      threads := threads[t := threads[t].(state := Running)];
      SetBadge(t, badge);
    }

    /** Writes the badge register of a thread that waits for nothing. */
    method SetBadge(t: nat, badge: Badge)
      requires Valid() && t in threads && !IsQueued(threads[t].state)
      modifies `threads
      ensures Valid() && threads == old(threads)[t := old(threads)[t].(badge := badge)]
    {
      hide Inv, LogOk;
      UnqueuedKeepsInv(View(), prio, t, threads[t].(badge := badge));
      threads := threads[t := threads[t].(badge := badge)];
    }

    /** ntfn_set_active, or a further badge for an active notification. */
    method HoldSignal(n: nat, badge: Badge)
      requires Valid() && n in ntfns && ntfns[n].state != NtfnWaiting
      modifies `ntfns, `log
      ensures Valid() && log == old(log)[n := Held(old(log)[n], badge)]
      ensures ntfns == old(ntfns)[n := WithSignal(old(ntfns)[n], badge)]
    {
      hide Inv, LogOk;
      HeldOk(ntfns[n], log[n], badge);
      var held := if ntfns[n].state == NtfnActive then ntfns[n].badge + badge else badge;
      NotificationKeepsInv(View(), prio, n, ntfns[n].(state := NtfnActive, badge := held));
      ntfns := ntfns[n := ntfns[n].(state := NtfnActive, badge := held)];
      log := log[n := Held(log[n], badge)];
    }

    /** receiveSignal */
    method ReceiveSignal(blocking: bool, t: nat, n: nat)
      requires Valid() && t in threads && !IsQueued(threads[t].state) && n in ntfns
      modifies `threads, `endpoints, `ntfns, `log
      ensures Valid()
      ensures if old(ntfns)[n].state == NtfnActive
              then Delivered(old(View()), View(), t, n) && log == old(log)[n := Collected(old(log)[n])]
                   && threads[t].badge == OrAll(old(log)[n].pending)
              else log == old(log) && View() == if blocking then Block(old(View()), prio, t, OnNotification(n))
                                                else WithBadge(old(View()), t, {})
    {
      hide Inv, Insert, OrAll, Flatten;
      if ntfns[n].state == NtfnActive {
        hide LogOk;
        CompleteSignal(n, t);
      } else if blocking {
        BlockKeepsInv(View(), prio, t, OnNotification(n));
        threads := threads[t := threads[t].(state := OnNotification(n))];
        ntfns := ntfns[n := ntfns[n].(state := NtfnWaiting, queue := Insert(prio, ntfns[n].queue, t))];
      } else {
        SetBadge(t, {});
      }
    }

    /** cancelIPC */
    method CancelIPC(t: nat)
      requires Valid() && t in threads
      modifies `threads, `endpoints, `ntfns
      ensures Valid() && View() == Cancelled(old(View()), prio, t)
    {
      hide Inv, OrAll, Flatten;
      ghost var s := View();
      ThreadPart(s, prio, t);
      CancelledKeepsInv(s, prio, t);
      threads := threads[t := threads[t].(fault := false)];
      match threads[t].state {
        case OnSend(e, _, _, _, _) =>
          DequeueEndpoint(e, t);
          threads := threads[t := threads[t].(state := Inactive)];
        case OnReceive(e, _) =>
          DequeueEndpoint(e, t);
          threads := threads[t := threads[t].(state := Inactive)];
        case OnNotification(n) =>
          NotificationPart(s, prio, n);
          DequeueNotification(n, t);
          threads := threads[t := threads[t].(state := Inactive)];
        case OnReply =>
          threads := threads[t := threads[t].(state := Inactive)];
        case _ =>
      }
    }

    /** setPriority, as far as it concerns a thread that waits: reorderEP or reorderNTFN. */
    method SetPriority(t: nat, p: nat)
      requires Valid() && t in threads
      modifies `prio, `endpoints, `ntfns
      ensures prio == old(prio)[t := p] && InItsQueue(old(View()), t)
      ensures Valid() && View() == Reordered(old(View()), prio, t)
    {
      hide Inv, OrAll, Flatten, Drop, Insert;
      ReorderedKeepsInv(View(), prio, t, p);
      prio := prio[t := p];
      match threads[t].state {
        case OnSend(e, _, _, _, _) => ReorderEndpoint(e, t);
        case OnReceive(e, _) => ReorderEndpoint(e, t);
        case OnNotification(n) =>
          var q := Drop(ntfns[n].queue, t);
          q := Insert(prio, q, t);
          ntfns := ntfns[n := ntfns[n].(queue := q)];
        case _ =>
      }
    }

    /** reorderEP */
    method ReorderEndpoint(e: nat, t: nat)
      requires e in endpoints
      modifies `endpoints
      ensures endpoints == old(endpoints)[e := EpReordered(old(endpoints)[e], prio, t)]
    {
      var q := Drop(endpoints[e].queue, t);
      q := Insert(prio, q, t);
      endpoints := endpoints[e := endpoints[e].(queue := q)];
    }

    /** cancelAllIPC: every thread in the queue restarts (or stops, if it has a fault), and the endpoint is idle. */
    method CancelAllIPC(e: nat)
      requires Valid() && e in endpoints
      modifies `threads, `endpoints
      ensures Valid() && endpoints == old(endpoints)[e := Endpoint(EpIdle, [])]
      ensures threads.Keys == old(threads.Keys)
      ensures forall x :: x in threads ==>
                threads[x] == if x in old(endpoints)[e].queue then Restarted(old(threads)[x]) else old(threads)[x]
      ensures forall x :: x in old(endpoints)[e].queue && x in threads ==>
                threads[x].state == if old(threads)[x].fault then Inactive else Restart
    {
      hide Inv, LogOk, Distinct, Ordered;
      ghost var s := View();
      EndpointPart(s, prio, e);
      EmptyQueue(prio);
      if endpoints[e].state != EpIdle {
        var q := endpoints[e].queue;
        endpoints := endpoints[e := Endpoint(EpIdle, [])];
        RestartAll(q);
        ReleaseEndpoint(s, prio, e, [], View());
      }
    }

    /** The loops over a queue whose object is idle already. */
    method RestartAll(q: seq<nat>)
      requires Distinct(q) && forall t :: t in q ==> t in threads
      modifies `threads
      ensures threads.Keys == old(threads.Keys)
      ensures forall x :: x in threads ==> threads[x] == if x in q then Restarted(old(threads)[x]) else old(threads)[x]
    {
      assert q[..0] == [];
      for i := 0 to |q|
        invariant threads.Keys == old(threads.Keys)
        invariant forall x :: x in threads ==>
                    threads[x] == if x in q[..i] then Restarted(old(threads)[x]) else old(threads)[x]
      {
        assert q[i] in q && q[i] !in q[..i];
        assert q[..i + 1] == q[..i] + [q[i]];
        threads := threads[q[i] := Restarted(threads[q[i]])];
      }
      assert q[..|q|] == q;
    }

    /** cancelBadgedSends: the senders of that badge restart; the others stay, in order. */
    method CancelBadgedSends(e: nat, badge: Badge)
      requires Valid() && e in endpoints
      modifies `threads, `endpoints
      ensures Valid() && threads.Keys == old(threads.Keys)
      ensures old(endpoints)[e].state != EpSend ==> View() == old(View())
      ensures old(endpoints)[e].state == EpSend ==>
                var q := old(endpoints)[e].queue;
                var kept := Others(old(threads), q, badge);
                && endpoints == old(endpoints)[e := Endpoint(if kept == [] then EpIdle else EpSend, kept)]
                && forall x :: x in threads ==>
                     && threads[x] == (if x in q && Matches(old(threads), x, badge) then Restarted(old(threads)[x])
                                       else old(threads)[x])
                     && (x in q && Matches(old(threads), x, badge) ==>
                           threads[x].state == if old(threads)[x].fault then Inactive else Restart)
    {
      hide Inv, LogOk, Distinct, Ordered, Others;
      ghost var s := View();
      if endpoints[e].state != EpSend { return; }
      EndpointPart(s, prio, e);
      var q := endpoints[e].queue;
      OthersFacts(threads, prio, q, badge);
      endpoints := endpoints[e := Endpoint(EpIdle, [])];
      var kept := RestartMatching(q, badge);
      endpoints := endpoints[e := Endpoint(EpIdle, kept)];
      if kept != [] {
        endpoints := endpoints[e := Endpoint(EpSend, kept)];
      }
      ReleaseEndpoint(s, prio, e, kept, View());
    }

    /** Restarts the senders of the badge and takes them out of the queue. */
    method RestartMatching(q: seq<nat>, badge: Badge) returns (queue: seq<nat>)
      requires Distinct(q) && forall t :: t in q ==> t in threads && threads[t].state.OnSend?
      modifies `threads
      ensures queue == Others(old(threads), q, badge) && threads.Keys == old(threads.Keys)
      ensures forall x :: x in threads ==>
                threads[x] ==
                if x in q && Matches(old(threads), x, badge) then Restarted(old(threads)[x]) else old(threads)[x]
    {
      hide Others, Distinct;
      queue := q;
      OthersEnds(threads, q, badge);
      for i := 0 to |q|
        invariant threads.Keys == old(threads.Keys)
        invariant queue == Others(old(threads), q[..i], badge) + q[i..]
        invariant forall x :: x in threads ==>
                    threads[x] == if x in q[..i] && Matches(old(threads), x, badge) then Restarted(old(threads)[x])
                                  else old(threads)[x]
      {
        var t := q[i];
        OthersStep(old(threads), q, i, badge);
        if threads[t].state.msg == badge {
          threads := threads[t := Restarted(threads[t])];
          queue := Drop(queue, t);
        }
      }
    }

    method RestartWaiting(q: seq<nat>)
      requires forall t :: t in q ==> t in threads
      modifies `threads
      ensures threads.Keys == old(threads.Keys)
      ensures forall x :: x in threads ==>
                threads[x] == if x in q then old(threads)[x].(state := Restart) else old(threads)[x]
    {
      assert q[..0] == [];
      for i := 0 to |q|
        invariant threads.Keys == old(threads.Keys)
        invariant forall x :: x in threads ==>
                    threads[x] == if x in q[..i] then old(threads)[x].(state := Restart) else old(threads)[x]
      {
        assert q[i] in q;
        assert q[..i + 1] == q[..i] + [q[i]];
        threads := threads[q[i] := threads[q[i]].(state := Restart)];
      }
      assert q[..|q|] == q;
    }

    /** cancelAllSignals: every waiting thread restarts. Pending signals are not touched. */
    method CancelAllSignals(n: nat)
      requires Valid() && n in ntfns
      modifies `threads, `ntfns
      ensures Valid() && threads.Keys == old(threads.Keys)
      ensures old(ntfns)[n].state != NtfnWaiting ==> View() == old(View())
      ensures old(ntfns)[n].state == NtfnWaiting ==>
                && ntfns == old(ntfns)[n := old(ntfns)[n].(state := NtfnIdle, queue := [])]
                && forall x :: x in threads ==>
                     threads[x] ==
                     if x in old(ntfns)[n].queue then old(threads)[x].(state := Restart) else old(threads)[x]
    {
      hide Inv, Distinct, Ordered, OrAll, Flatten;
      ghost var s := View();
      NotificationPart(s, prio, n);
      if ntfns[n].state == NtfnWaiting {
        var q := ntfns[n].queue;
        ntfns := ntfns[n := ntfns[n].(state := NtfnIdle)];
        ntfns := ntfns[n := ntfns[n].(queue := [])];
        RestartWaiting(q);
        ReleaseNotification(s, prio, n, View());
      }
    }
  }

  lemma {:induction false} OthersWithin(threads: map<nat, Tcb>, q: seq<nat>, badge: Badge)
    ensures forall x :: x in Others(threads, q, badge) ==> x in q
  {
    if q != [] {
      OthersWithin(threads, q[..|q| - 1], badge);
      assert q == q[..|q| - 1] + [q[|q| - 1]];
    }
  }

  lemma OthersEnds(threads: map<nat, Tcb>, q: seq<nat>, badge: Badge)
    ensures q[..0] == [] && Others(threads, q[..0], badge) + q[0..] == q
    ensures q[..|q|] == q && Others(threads, q[..|q|], badge) + q[|q|..] == Others(threads, q, badge)
  {
    assert q[..|q|] == q && q[|q|..] == [];
  }

  /** One step of the loop: the next thread is kept in place or dropped from the queue. */
  lemma OthersStep(threads: map<nat, Tcb>, q: seq<nat>, i: nat, badge: Badge)
    requires Distinct(q) && i < |q|
    ensures q[i] in q && q[i] !in q[..i] && q[..i + 1] == q[..i] + [q[i]]
    ensures var before := Others(threads, q[..i], badge) + q[i..];
            var after := Others(threads, q[..i + 1], badge) + q[i + 1..];
            after == if Matches(threads, q[i], badge) then Drop(before, q[i]) else before
  {
    hide Matches;
    var t, kept := q[i], Others(threads, q[..i], badge);
    assert q[..i + 1] == q[..i] + [t] && q[..i + 1][..i] == q[..i];
    assert q[i..] == [t] + q[i + 1..];
    OthersWithin(threads, q[..i], badge);
    DropAfter(kept, t, q[i + 1..]);
    assert kept + ([t] + q[i + 1..]) == (kept + [t]) + q[i + 1..];
  }

  /** Dropping the first thread behind those that are kept. */
  lemma {:induction false} DropAfter(kept: seq<nat>, t: nat, rest: seq<nat>)
    requires t !in kept
    ensures Drop(kept + ([t] + rest), t) == kept + rest
  {
    if kept == [] {
      assert kept + ([t] + rest) == [t] + rest && ([t] + rest)[1..] == rest && kept + rest == rest;
    } else {
      var tail := kept[1..];
      assert (kept + ([t] + rest))[1..] == tail + ([t] + rest);
      DropAfter(tail, t, rest);
      assert [kept[0]] + (tail + rest) == kept + rest;
    }
  }

  /** t has the badge the notification held, and the notification is idle again. */
  predicate Delivered(s: State, r: State, t: nat, n: nat) {
    && t in s.threads && n in s.ntfns
    && r.threads == s.threads[t := s.threads[t].(badge := s.ntfns[n].badge)]
    && r.ntfns == s.ntfns[n := s.ntfns[n].(state := NtfnIdle)]
    && r.endpoints == s.endpoints
  }

  /**
   * The thread that gets the next signal at once: the first waiting one, or the bound one if it waits for a message.
   */
  function Taker(s: State, n: nat): nat
    requires n in s.ntfns
  {
    var nt := s.ntfns[n];
    match nt.state
    case NtfnWaiting => First(nt.queue)
    case NtfnIdle => if nt.bound in s.threads && s.threads[nt.bound].state.OnReceive? then nt.bound else 0
    case NtfnActive => 0
  }

  lemma TakerWaits(s: State, prio: Priorities, n: nat)
    requires Inv(s, prio) && n in s.ntfns
    ensures var t := Taker(s, n); t != 0 ==> t in s.threads && IsQueued(s.threads[t].state) && InItsQueue(s, t)
  {
    hide Inv, InItsQueue;
    var t := Taker(s, n);
    if s.ntfns[n].state == NtfnWaiting {
      WaiterIn(s, prio, n);
    } else if t != 0 {
      ThreadPart(s, prio, t);
    }
  }

  /** A notification that keeps one more signal. */
  function WithSignal(n: Notification, badge: Badge): Notification {
    n.(state := NtfnActive, badge := if n.state == NtfnActive then n.badge + badge else badge)
  }

  /** A blocked thread leaves its queue and runs with the signal. */
  function Taking(s: State, t: nat, badge: Badge, fault: bool): State
    requires t in s.threads && IsQueued(s.threads[t].state) && InItsQueue(s, t)
  {
    var w := Wake(s, t, Running);
    w.(threads := w.threads[t := Tcb(Running, badge, s.threads[t].bound, fault)])
  }

  /** Cancelling a wait for a message and running with the signal is to take the signal, without a fault. */
  lemma TakingIsCancelling(s: State, prio: Priorities, t: nat, badge: Badge)
    requires Inv(s, prio) && t in s.threads && s.threads[t].state.OnReceive?
    ensures InItsQueue(s, t)
    ensures var c := Cancelled(s, prio, t);
            && t in c.threads && c.threads[t] == s.threads[t].(state := Inactive, fault := false) && c.ntfns == s.ntfns
            && Taking(s, t, badge, false)
            == c.(threads := c.threads[t := Tcb(Running, badge, s.threads[t].bound, false)])
  {
    hide Inv, Drop;
    ThreadPart(s, prio, t);
  }

  /** What a signal does: one thread takes it, or the notification keeps it. Nothing else changes. */
  function Signalled(s: State, prio: Priorities, n: nat, badge: Badge): State
    requires Inv(s, prio) && n in s.ntfns
  {
    var t := Taker(s, n);
    if t == 0 then
      s.(ntfns := s.ntfns[n := WithSignal(s.ntfns[n], badge)])
    else
      TakerWaits(s, prio, n);
      Taking(s, t, badge, s.ntfns[n].state == NtfnWaiting && s.threads[t].fault)
  }

  lemma BoundIn(s: State, prio: Priorities, n: nat)
    requires Inv(s, prio) && n in s.ntfns
    ensures 0 !in s.threads && (s.ntfns[n].bound != 0 ==> s.ntfns[n].bound in s.threads)
  {
    NotificationPart(s, prio, n);
  }

  lemma WaiterIn(s: State, prio: Priorities, n: nat)
    requires Inv(s, prio) && n in s.ntfns && s.ntfns[n].state == NtfnWaiting
    ensures var t := First(s.ntfns[n].queue);
            s.ntfns[n].queue != [] && t != 0 && t in s.threads && s.threads[t].state == OnNotification(n)
              && InItsQueue(s, t)
  {
    hide Distinct, Ordered;
    NotificationPart(s, prio, n);
    var t := s.ntfns[n].queue[0];
    assert t in s.ntfns[n].queue;
  }
}
