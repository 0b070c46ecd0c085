/** Many senders, many receivers: who gets which message. */
module IpcOrder {
  import opened EpQueue
  import opened Ipc
  import opened IpcSystem

  // ------------------------------------------------------------------ queues of many

  /** The threads of ts join the queue one after the other. */
  function InsertAll(prio: Priorities, q: seq<nat>, ts: seq<nat>): seq<nat>
    decreases |ts|
  {
    if ts == [] then q else InsertAll(prio, Insert(prio, q, ts[0]), ts[1..])
  }

  function OfPriority(prio: Priorities, s: seq<nat>, p: nat): seq<nat> {
    if s == [] then []
    else (if PriorityOf(prio, s[0]) == p then [s[0]] else []) + OfPriority(prio, s[1..], p)
  }

  lemma {:induction false} OfPriorityConcat(prio: Priorities, a: seq<nat>, b: seq<nat>, p: nat)
    ensures OfPriority(prio, a + b, p) == OfPriority(prio, a, p) + OfPriority(prio, b, p)
  {
    if a == [] {
      assert a + b == b;
    } else {
      var rest, head := a[1..], if PriorityOf(prio, a[0]) == p then [a[0]] else [];
      assert (a + b)[0] == a[0] && (a + b)[1..] == rest + b;
      OfPriorityConcat(prio, rest, b, p);
      assert head + (OfPriority(prio, rest, p) + OfPriority(prio, b, p))
             == (head + OfPriority(prio, rest, p)) + OfPriority(prio, b, p);
    }
  }

  lemma {:induction false} NoneOfPriority(prio: Priorities, s: seq<nat>, p: nat)
    requires forall i :: 0 <= i < |s| ==> PriorityOf(prio, s[i]) < p
    ensures OfPriority(prio, s, p) == []
  {
    if s != [] { NoneOfPriority(prio, s[1..], p); }
  }

  /** Behind the place where a thread is inserted there is nobody of its priority. */
  lemma NoneBehind(prio: Priorities, s: seq<nat>, t: nat)
    ensures OfPriority(prio, s[Position(prio, s, t)..], PriorityOf(prio, t)) == []
  {
    NoneOfPriority(prio, s[Position(prio, s, t)..], PriorityOf(prio, t));
  }

  lemma OneOfPriority(prio: Priorities, t: nat, p: nat)
    ensures OfPriority(prio, [t], p) == if PriorityOf(prio, t) == p then [t] else []
  {
    assert [t][1..] == [];
  }

  /** A thread joins the others of its priority at the end. */
  lemma InsertIsStable(prio: Priorities, s: seq<nat>, t: nat, p: nat)
    ensures OfPriority(prio, Insert(prio, s, t), p) == OfPriority(prio, s + [t], p)
  {
    hide Position, OfPriority, PriorityOf;
    var k := Position(prio, s, t);
    NoneBehind(prio, s, t);
    OneOfPriority(prio, t, p);
    assert s == s[..k] + s[k..];
    OfPriorityConcat(prio, s[..k], s[k..], p);
    OfPriorityConcat(prio, s, [t], p);
    OfPriorityConcat(prio, s[..k] + [t], s[k..], p);
    OfPriorityConcat(prio, s[..k], [t], p);
  }

  /**
   * However many threads join: the queue is in priority order, and within a priority the order is that of arrival,
   * behind those who waited before.
   */
  lemma {:induction false} InsertAllIsStable(prio: Priorities, q: seq<nat>, ts: seq<nat>, p: nat)
    requires Distinct(q + ts) && Ordered(prio, q)
    ensures var r := InsertAll(prio, q, ts);
            && Ordered(prio, r) && OfPriority(prio, r, p) == OfPriority(prio, q + ts, p)
            && Distinct(r) && |r| == |q| + |ts| && forall x :: x in r <==> x in q || x in ts
    decreases |ts|
  {
    if ts == [] {
      assert q + ts == q;
    } else {
      var t, rest := ts[0], ts[1..];
      assert q + ts == q + [t] + rest;
      FirstArrival(q, t, rest);
      InsertFacts(prio, q, t);
      InsertIsStable(prio, q, t, p);
      InsertedLength(q, Position(prio, q, t), t);
      OfPriorityConcat(prio, q + [t], rest, p);
      OfPriorityConcat(prio, Insert(prio, q, t), rest, p);
      StillDistinct(q, t, rest, Insert(prio, q, t));
      hide Insert, Ordered, Distinct;
      InsertAllIsStable(prio, Insert(prio, q, t), rest, p);
    }
  }

  lemma FirstArrival(q: seq<nat>, t: nat, rest: seq<nat>)
    requires Distinct(q + [t] + rest)
    ensures t !in q && t !in rest && Distinct(q) && Distinct(rest) && forall x :: x in q ==> x !in rest
  {
    var s := q + [t] + rest;
    forall i | 0 <= i < |q| ensures q[i] != t { assert s[i] != s[|q|]; }
    forall i | 0 <= i < |rest| ensures rest[i] != t { assert s[|q|] != s[|q| + 1 + i]; }
    forall i, j | 0 <= i < j < |q| ensures q[i] != q[j] { assert s[i] != s[j]; }
    forall i, j | 0 <= i < j < |rest| ensures rest[i] != rest[j] { assert s[|q| + 1 + i] != s[|q| + 1 + j]; }
    forall i, j | 0 <= i < |q| && 0 <= j < |rest| ensures q[i] != rest[j] { assert s[i] != s[|q| + 1 + j]; }
  }

  lemma StillDistinct(q: seq<nat>, t: nat, rest: seq<nat>, r: seq<nat>)
    requires Distinct(r) && Distinct(rest) && t !in rest && (forall x :: x in q ==> x !in rest)
    requires forall x :: x in r <==> x in q || x == t
    ensures Distinct(r + rest)
  {
    var s := r + rest;
    forall i, j | 0 <= i < j < |s| ensures s[i] != s[j] {
      if i < |r| { assert s[i] in r; }
      if j >= |r| { assert s[j] in rest; }
    }
  }

  // ------------------------------------------------------------------ one operation, from any state

  /** A message that a thread sends and waits to be rid of. */
  datatype Message = Message(from: nat, badge: Badge, grant: bool, grantReply: bool, call: bool)

  /** A thread that receives, and waits if there is nothing. */
  datatype Receiver = Receiver(t: nat, hasReply: bool)

  function Waiting(m: Message, e: nat): ThreadState {
    OnSend(e, m.badge, m.grant, m.grantReply, m.call)
  }

  /** What becomes of a sender whose message has been taken by a receiver. */
  function AfterSend(t: Tcb, isCall: bool, mayReply: bool, hasReply: bool): ThreadState {
    if !isCall && !t.fault then Running else if mayReply && hasReply then OnReply else Inactive
  }

  function SendOne(s: State, prio: Priorities, e: nat, m: Message): State
    requires Inv(s, prio) && m.from in s.threads && !IsQueued(s.threads[m.from].state) && e in s.endpoints
  {
    Sent(s, prio, true, m.call, m.badge, m.grant, m.grantReply, m.from, e)
  }

  function ReceiveOne(s: State, prio: Priorities, e: nat, r: Receiver): State
    requires Inv(s, prio) && r.t in s.threads && !IsQueued(s.threads[r.t].state) && e in s.endpoints
  {
    Received(s, prio, true, r.hasReply, r.t, e)
  }

  /** Without a receiver the sender waits, behind the senders of at least its priority. */
  lemma SenderWaits(s: State, prio: Priorities, e: nat, m: Message)
    requires Inv(s, prio) && m.from in s.threads && !IsQueued(s.threads[m.from].state) && e in s.endpoints
    requires s.endpoints[e].state != EpRecv
    ensures var r := SendOne(s, prio, e, m);
            && r.threads == s.threads[m.from := s.threads[m.from].(state := Waiting(m, e))]
            && r.endpoints == s.endpoints[e := Endpoint(EpSend, Insert(prio, s.endpoints[e].queue, m.from))]
            && r.ntfns == s.ntfns
  {
    hide Inv, Insert;
  }

  /** Without a sender the receiver waits, behind the receivers of at least its priority. */
  lemma ReceiverWaits(s: State, prio: Priorities, e: nat, r: Receiver)
    requires Inv(s, prio) && r.t in s.threads && !IsQueued(s.threads[r.t].state) && e in s.endpoints
    requires s.endpoints[e].state != EpSend
    ensures var d := ReceiveOne(s, prio, e, r);
            && d.threads == s.threads[r.t := s.threads[r.t].(state := OnReceive(e, r.hasReply))]
            && d.endpoints == s.endpoints[e := Endpoint(EpRecv, Insert(prio, s.endpoints[e].queue, r.t))]
            && d.ntfns == s.ntfns
  {
    hide Inv, Insert;
  }

  function Rest(ep: Endpoint): Endpoint
    requires ep.queue != []
  {
    Endpoint(if |ep.queue| == 1 then EpIdle else ep.state, ep.queue[1..])
  }

  lemma WithoutFirst(ep: Endpoint)
    requires ep.queue != []
    ensures EpWithout(ep, ep.queue[0]) == Rest(ep)
  {
  }

  /** A receiver gets the message of the first sender. */
  lemma ReceiverTakes(s: State, prio: Priorities, e: nat, r: Receiver)
    requires Inv(s, prio) && r.t in s.threads && !IsQueued(s.threads[r.t].state) && e in s.endpoints
    requires s.endpoints[e].state == EpSend
    ensures s.endpoints[e].queue != []
    ensures var d, x := ReceiveOne(s, prio, e, r), s.endpoints[e].queue[0];
            && x in s.threads && x != r.t && s.threads[x].state.OnSend? && s.threads[x].state.ep == e
            && var was := s.threads[x].state;
               && d.threads == s.threads[x := s.threads[x].(state := Taken(s.threads[x], r.hasReply))]
                                        [r.t := s.threads[r.t].(badge := was.msg)]
               && d.endpoints == s.endpoints[e := Rest(s.endpoints[e])] && d.ntfns == s.ntfns
  {
    HeadWaits(s, prio, e);
    WithoutFirst(s.endpoints[e]);
    hide Inv, Drop, EpWithout;
  }

  /** A sender's message goes to the first receiver. */
  lemma SenderGives(s: State, prio: Priorities, e: nat, m: Message)
    requires Inv(s, prio) && m.from in s.threads && !IsQueued(s.threads[m.from].state) && e in s.endpoints
    requires s.endpoints[e].state == EpRecv
    ensures s.endpoints[e].queue != []
    ensures var d, x := SendOne(s, prio, e, m), s.endpoints[e].queue[0];
            && x in s.threads && x != m.from && s.threads[x].state.OnReceive? && s.threads[x].state.ep == e
            && var woken := s.threads[x := s.threads[x].(state := Running, badge := m.badge)];
               var ts := AfterSend(s.threads[m.from], m.call, m.grant || m.grantReply, s.threads[x].state.hasReply);
               && d.threads == (if m.call || s.threads[m.from].fault
                                then woken[m.from := s.threads[m.from].(state := ts)] else woken)
               && d.endpoints == s.endpoints[e := Rest(s.endpoints[e])] && d.ntfns == s.ntfns
  {
    HeadWaits(s, prio, e);
    WithoutFirst(s.endpoints[e]);
    hide Inv, Drop, EpWithout;
  }

  // ------------------------------------------------------------------ one after the other

  /** Threads that wait for nothing. */
  predicate Free(s: State, ts: seq<nat>) {
    Distinct(ts) && forall x | x in ts :: x in s.threads && !IsQueued(s.threads[x].state)
  }

  function Senders(ms: seq<Message>): (ts: seq<nat>)
    ensures |ts| == |ms| && forall i | 0 <= i < |ms| :: ts[i] == ms[i].from
  {
    seq(|ms|, i requires 0 <= i < |ms| => ms[i].from)
  }

  function Threads(rs: seq<Receiver>): (ts: seq<nat>)
    ensures |ts| == |rs| && forall i | 0 <= i < |rs| :: ts[i] == rs[i].t
  {
    seq(|rs|, i requires 0 <= i < |rs| => rs[i].t)
  }

  lemma FirstIsFree(s: State, ts: seq<nat>)
    requires Free(s, ts) && ts != []
    ensures ts[0] in s.threads && !IsQueued(s.threads[ts[0]].state) && ts[0] !in ts[1..] && Distinct(ts[1..])
  {
    TailDistinct(ts);
  }

  /** Sending and receiving change only the thread that does it and one that waits. */
  lemma OthersStayFree(s: State, d: State, ts: seq<nat>)
    requires Free(s, ts) && ts != [] && d.threads.Keys == s.threads.Keys
    requires forall x | x in s.threads && x != ts[0] && !IsQueued(s.threads[x].state) :: d.threads[x] == s.threads[x]
    ensures Free(d, ts[1..])
  {
    TailDistinct(ts);
    forall x | x in ts[1..] ensures x in d.threads && !IsQueued(d.threads[x].state) { assert x in ts; }
  }

  lemma SendStep(s: State, prio: Priorities, e: nat, ms: seq<Message>)
    requires Inv(s, prio) && e in s.endpoints && ms != [] && Free(s, Senders(ms))
    ensures ms[0].from in s.threads && !IsQueued(s.threads[ms[0].from].state)
    ensures var d := SendOne(s, prio, e, ms[0]); Inv(d, prio) && e in d.endpoints && Free(d, Senders(ms[1..]))
  {
    var m := ms[0];
    FirstIsFree(s, Senders(ms));
    SentKeepsInv(s, prio, true, m.call, m.badge, m.grant, m.grantReply, m.from, e);
    var d := SendOne(s, prio, e, m);
    if s.endpoints[e].state == EpRecv { SenderGives(s, prio, e, m); } else { SenderWaits(s, prio, e, m); }
    hide Inv, SendOne;
    assert Senders(ms)[1..] == Senders(ms[1..]);
    OthersStayFree(s, d, Senders(ms));
  }

  lemma ReceiveStep(s: State, prio: Priorities, e: nat, rs: seq<Receiver>)
    requires Inv(s, prio) && e in s.endpoints && rs != [] && Free(s, Threads(rs))
    ensures rs[0].t in s.threads && !IsQueued(s.threads[rs[0].t].state)
    ensures var d := ReceiveOne(s, prio, e, rs[0]); Inv(d, prio) && e in d.endpoints && Free(d, Threads(rs[1..]))
  {
    var r := rs[0];
    FirstIsFree(s, Threads(rs));
    ReceivedKeepsInv(s, prio, true, r.hasReply, r.t, e);
    var d := ReceiveOne(s, prio, e, r);
    if s.endpoints[e].state == EpSend { ReceiverTakes(s, prio, e, r); } else { ReceiverWaits(s, prio, e, r); }
    hide Inv, ReceiveOne;
    assert Threads(rs)[1..] == Threads(rs[1..]);
    OthersStayFree(s, d, Threads(rs));
  }

  function SendAll(s: State, prio: Priorities, e: nat, ms: seq<Message>): (d: State)
    requires Inv(s, prio) && e in s.endpoints && Free(s, Senders(ms))
    ensures Inv(d, prio) && e in d.endpoints
    decreases |ms|
  {
    if ms == [] then s
    else
      SendStep(s, prio, e, ms);
      SendAll(SendOne(s, prio, e, ms[0]), prio, e, ms[1..])
  }

  function ReceiveAll(s: State, prio: Priorities, e: nat, rs: seq<Receiver>): (d: State)
    requires Inv(s, prio) && e in s.endpoints && Free(s, Threads(rs))
    ensures Inv(d, prio) && e in d.endpoints
    decreases |rs|
  {
    if rs == [] then s
    else
      ReceiveStep(s, prio, e, rs);
      ReceiveAll(ReceiveOne(s, prio, e, rs[0]), prio, e, rs[1..])
  }

  /** The threads with the given states. */
  function Set(threads: map<nat, Tcb>, ts: seq<nat>, states: seq<ThreadState>): map<nat, Tcb>
    requires |ts| == |states| && forall x | x in ts :: x in threads
    decreases |ts|
  {
    if ts == [] then threads
    else Set(threads[ts[0] := threads[ts[0]].(state := states[0])], ts[1..], states[1..])
  }

  lemma {:induction false} SetAt(threads: map<nat, Tcb>, ts: seq<nat>, states: seq<ThreadState>, x: nat)
    requires |ts| == |states| && (forall x | x in ts :: x in threads) && Distinct(ts)
    ensures var d := Set(threads, ts, states);
            && d.Keys == threads.Keys
            && (x in threads && x !in ts ==> d[x] == threads[x])
            && (forall i | 0 <= i < |ts| && ts[i] == x :: d[x] == threads[x].(state := states[i]))
    decreases |ts|
  {
    if ts != [] {
      TailDistinct(ts);
      SetAt(threads[ts[0] := threads[ts[0]].(state := states[0])], ts[1..], states[1..], x);
      assert forall i | 0 < i < |ts| :: ts[1..][i - 1] == ts[i] && states[1..][i - 1] == states[i];
    }
  }

  function Waits(ms: seq<Message>, e: nat): (r: seq<ThreadState>)
    ensures |r| == |ms| && forall i | 0 <= i < |ms| :: r[i] == Waiting(ms[i], e)
  {
    seq(|ms|, i requires 0 <= i < |ms| => Waiting(ms[i], e))
  }

  function WaitsToReceive(rs: seq<Receiver>, e: nat): (r: seq<ThreadState>)
    ensures |r| == |rs| && forall i | 0 <= i < |rs| :: r[i] == OnReceive(e, rs[i].hasReply)
  {
    seq(|rs|, i requires 0 <= i < |rs| => OnReceive(e, rs[i].hasReply))
  }

  /** Without a receiver all senders wait, each with its own message; nobody else is touched. */
  lemma {:induction false} AllSendersWait(s: State, prio: Priorities, e: nat, ms: seq<Message>)
    requires Inv(s, prio) && e in s.endpoints && Free(s, Senders(ms)) && s.endpoints[e].state != EpRecv
    ensures var d := SendAll(s, prio, e, ms);
            && d.endpoints == s.endpoints[e := d.endpoints[e]] && d.ntfns == s.ntfns
            && d.endpoints[e].queue == InsertAll(prio, s.endpoints[e].queue, Senders(ms))
            && d.endpoints[e].state == (if ms == [] then s.endpoints[e].state else EpSend)
            && d.threads == Set(s.threads, Senders(ms), Waits(ms, e))
    decreases |ms|
  {
    hide Inv, SendOne, Insert, Free, Distinct;
    if ms != [] {
      SendStep(s, prio, e, ms);
      SenderWaits(s, prio, e, ms[0]);
      assert Senders(ms)[0] == ms[0].from && Senders(ms)[1..] == Senders(ms[1..]);
      assert Waits(ms, e)[1..] == Waits(ms[1..], e);
      AllSendersWait(SendOne(s, prio, e, ms[0]), prio, e, ms[1..]);
    }
  }

  lemma {:induction false} AllReceiversWait(s: State, prio: Priorities, e: nat, rs: seq<Receiver>)
    requires Inv(s, prio) && e in s.endpoints && Free(s, Threads(rs)) && s.endpoints[e].state != EpSend
    ensures var d := ReceiveAll(s, prio, e, rs);
            && d.endpoints == s.endpoints[e := d.endpoints[e]] && d.ntfns == s.ntfns
            && d.endpoints[e].queue == InsertAll(prio, s.endpoints[e].queue, Threads(rs))
            && d.endpoints[e].state == (if rs == [] then s.endpoints[e].state else EpRecv)
            && d.threads == Set(s.threads, Threads(rs), WaitsToReceive(rs, e))
    decreases |rs|
  {
    hide Inv, ReceiveOne, Insert, Free, Distinct;
    if rs != [] {
      ReceiveStep(s, prio, e, rs);
      ReceiverWaits(s, prio, e, rs[0]);
      assert Threads(rs)[0] == rs[0].t && Threads(rs)[1..] == Threads(rs[1..]);
      assert WaitsToReceive(rs, e)[1..] == WaitsToReceive(rs[1..], e);
      AllReceiversWait(ReceiveOne(s, prio, e, rs[0]), prio, e, rs[1..]);
    }
  }

  /** What becomes of a waiting sender whose message has been taken. */
  function Taken(t: Tcb, hasReply: bool): ThreadState
    requires t.state.OnSend?
  {
    AfterSend(t, t.state.isCall, t.state.canGrant || t.state.canGrantReply, hasReply)
  }

  function TakeOne(threads: map<nat, Tcb>, x: nat, r: Receiver): map<nat, Tcb> {
    if x in threads && r.t in threads && threads[x].state.OnSend?
    then threads[x := threads[x].(state := Taken(threads[x], r.hasReply))]
                [r.t := threads[r.t].(badge := threads[x].state.msg)]
    else threads
  }

  function TakeAll(threads: map<nat, Tcb>, q: seq<nat>, rs: seq<Receiver>): map<nat, Tcb>
    requires |rs| <= |q|
    decreases |rs|
  {
    if rs == [] then threads else TakeAll(TakeOne(threads, q[0], rs[0]), q[1..], rs[1..])
  }

  /** The threads of q wait to send, and none of ts does. */
  predicate Ready(threads: map<nat, Tcb>, q: seq<nat>, ts: seq<nat>) {
    && Distinct(q) && Distinct(ts)
    && (forall x | x in q :: x in threads && threads[x].state.OnSend?)
    && (forall x | x in ts :: x in threads && x !in q)
  }

  lemma ReadyAfter(threads: map<nat, Tcb>, q: seq<nat>, rs: seq<Receiver>)
    requires Ready(threads, q, Threads(rs)) && rs != [] && q != []
    ensures Ready(TakeOne(threads, q[0], rs[0]), q[1..], Threads(rs[1..]))
    ensures q[0] !in Threads(rs[1..]) && rs[0].t !in q && rs[0].t !in Threads(rs[1..]) && q[0] !in q[1..]
    ensures q[0] in threads && rs[0].t in threads && threads[q[0]].state.OnSend?
  {
    var ts := Threads(rs);
    TailDistinct(q);
    TailDistinct(ts);
    assert ts[0] in ts && q[0] in q && ts[1..] == Threads(rs[1..]);
    assert forall x | x in ts[1..] :: x in ts;
    assert forall x | x in q[1..] :: x in q;
  }

  lemma {:induction false} TakeAllElse(threads: map<nat, Tcb>, q: seq<nat>, rs: seq<Receiver>, x: nat)
    requires |rs| <= |q| && Ready(threads, q, Threads(rs)) && x in threads && x !in q && x !in Threads(rs)
    ensures var d := TakeAll(threads, q, rs); d.Keys == threads.Keys && d[x] == threads[x]
    decreases |rs|
  {
    if rs != [] {
      ReadyAfter(threads, q, rs);
      hide Ready;
      assert Threads(rs)[0] == rs[0].t && Threads(rs)[1..] == Threads(rs[1..]);
      TakeAllElse(TakeOne(threads, q[0], rs[0]), q[1..], rs[1..], x);
    }
  }

  /** The i-th receiver gets the message of the i-th sender. */
  lemma {:induction false} TakeAllAt(threads: map<nat, Tcb>, q: seq<nat>, rs: seq<Receiver>, i: nat)
    requires |rs| <= |q| && Ready(threads, q, Threads(rs)) && i < |rs|
    ensures var d := TakeAll(threads, q, rs);
            && d.Keys == threads.Keys && rs[i].t in threads && q[i] in threads && threads[q[i]].state.OnSend?
            && d[rs[i].t] == threads[rs[i].t].(badge := threads[q[i]].state.msg)
            && d[q[i]] == threads[q[i]].(state := Taken(threads[q[i]], rs[i].hasReply))
    decreases |rs|
  {
    ReadyAfter(threads, q, rs);
    hide Ready;
    var d1 := TakeOne(threads, q[0], rs[0]);
    if i == 0 {
      TakeAllElse(d1, q[1..], rs[1..], q[0]);
      TakeAllElse(d1, q[1..], rs[1..], rs[0].t);
    } else {
      TakeAllAt(d1, q[1..], rs[1..], i - 1);
      OtherPair(q, rs, i);
    }
  }

  lemma OtherPair(q: seq<nat>, rs: seq<Receiver>, i: nat)
    requires 0 < i < |rs| <= |q| && q[0] !in Threads(rs[1..]) && rs[0].t !in q && rs[0].t !in Threads(rs[1..])
    requires q[0] !in q[1..]
    ensures q[1..][i - 1] == q[i] && rs[1..][i - 1] == rs[i]
    ensures q[i] != q[0] && q[i] != rs[0].t && rs[i].t != q[0] && rs[i].t != rs[0].t
  {
    assert Threads(rs[1..])[i - 1] == rs[i].t;
    assert q[1..][i - 1] in q[1..] && q[i] in q && Threads(rs[1..])[i - 1] in Threads(rs[1..]);
  }

  lemma {:induction false} AllReceiversTake(s: State, prio: Priorities, e: nat, rs: seq<Receiver>)
    requires Inv(s, prio) && e in s.endpoints && Free(s, Threads(rs)) && |rs| <= |s.endpoints[e].queue|
    requires rs != [] ==> s.endpoints[e].state == EpSend
    ensures var d, q := ReceiveAll(s, prio, e, rs), s.endpoints[e].queue;
            && d.endpoints == s.endpoints[e := d.endpoints[e]] && d.ntfns == s.ntfns
            && d.endpoints[e].queue == q[|rs|..] && d.threads == TakeAll(s.threads, q, rs)
    decreases |rs|
  {
    hide Inv, ReceiveOne, Free, Taken;
    if rs != [] {
      ReceiveStep(s, prio, e, rs);
      ReceiverTakes(s, prio, e, rs[0]);
      AllReceiversTake(ReceiveOne(s, prio, e, rs[0]), prio, e, rs[1..]);
    }
  }

  // ------------------------------------------------------------------ senders first

  lemma QueueAndFree(s: State, prio: Priorities, e: nat, ts: seq<nat>)
    requires Inv(s, prio) && e in s.endpoints && Free(s, ts)
    ensures Distinct(s.endpoints[e].queue + ts) && Ordered(prio, s.endpoints[e].queue)
  {
    var q := s.endpoints[e].queue;
    EndpointPart(s, prio, e);
    hide Inv, Ordered;
    forall x | x in q ensures x !in ts { assert WaitsAt(s.threads[x].state, e, s.endpoints[e].state); }
    var r := q + ts;
    forall i, j | 0 <= i < j < |r| ensures r[i] != r[j] {
      if i < |q| { assert r[i] in q; }
      if j >= |q| { assert r[j] in ts; }
    }
  }

  lemma StillFree(s: State, ts: seq<nat>, states: seq<ThreadState>, us: seq<nat>, d: State)
    requires Free(s, ts) && Free(s, us) && |states| == |ts| && (forall x | x in us :: x !in ts)
    requires d.threads == Set(s.threads, ts, states)
    ensures Free(d, us)
  {
    forall x | x in us ensures x in d.threads && !IsQueued(d.threads[x].state) { SetAt(s.threads, ts, states, x); }
  }

  /** The senders' turn: what is in the queue is the message of the thread there, old or new. */
  predicate HasMessage(s: State, ms: seq<Message>, x: nat, badge: Badge) {
    && (x in s.threads && x !in Senders(ms) && s.threads[x].state.OnSend? ==> badge == s.threads[x].state.msg)
    && forall j | 0 <= j < |ms| && ms[j].from == x :: badge == ms[j].badge
  }

  lemma MessagesWait(s: State, prio: Priorities, e: nat, ms: seq<Message>, x: nat)
    requires Inv(s, prio) && e in s.endpoints && Free(s, Senders(ms)) && s.endpoints[e].state != EpRecv
    requires x in SendAll(s, prio, e, ms).endpoints[e].queue
    ensures var d := SendAll(s, prio, e, ms);
            x in d.threads && d.threads[x].state.OnSend? && HasMessage(s, ms, x, d.threads[x].state.msg)
  {
    AllSendersWait(s, prio, e, ms);
    var d, ts := SendAll(s, prio, e, ms), Senders(ms);
    EndpointPart(d, prio, e);
    SetAt(s.threads, ts, Waits(ms, e), x);
    QueueAndFree(s, prio, e, ts);
    InsertAllIsStable(prio, s.endpoints[e].queue, ts, 0);
    EndpointPart(s, prio, e);
    hide Inv, Distinct, Ordered, Set, InsertAll, SendAll;
    assert d.endpoints[e].queue != [];
    if x in ts {
      var j :| 0 <= j < |ms| && ts[j] == x;
      assert d.threads[x].state == Waiting(ms[j], e);
    }
  }

  /** The queue has the threads that arrived, by priority, and for each priority in the order of arrival. */
  ghost predicate InOrder(prio: Priorities, queue: seq<nat>, arrived: seq<nat>) {
    && Distinct(queue) && |queue| == |arrived| && (forall x :: x in queue <==> x in arrived)
    && Ordered(prio, queue) && forall p :: OfPriority(prio, queue, p) == OfPriority(prio, arrived, p)
  }

  lemma InsertAllInOrder(s: State, prio: Priorities, e: nat, ts: seq<nat>)
    requires Inv(s, prio) && e in s.endpoints && Free(s, ts)
    ensures InOrder(prio, InsertAll(prio, s.endpoints[e].queue, ts), s.endpoints[e].queue + ts)
  {
    QueueAndFree(s, prio, e, ts);
    hide Inv, Ordered, OfPriority, Distinct, InsertAll;
    forall p: nat { InsertAllIsStable(prio, s.endpoints[e].queue, ts, p); }
    InsertAllIsStable(prio, s.endpoints[e].queue, ts, 0);
  }

  /** Two groups of threads, none of which waits, and which share none. */
  predicate Apart(s: State, ts: seq<nat>, us: seq<nat>) {
    Free(s, ts) && Free(s, us) && forall x | x in us :: x !in ts
  }

  lemma SendersLeaveFree(s: State, prio: Priorities, e: nat, ms: seq<Message>, us: seq<nat>)
    requires Inv(s, prio) && e in s.endpoints && s.endpoints[e].state != EpRecv && Apart(s, Senders(ms), us)
    ensures Free(SendAll(s, prio, e, ms), us)
  {
    hide Inv;
    AllSendersWait(s, prio, e, ms);
    StillFree(s, Senders(ms), Waits(ms, e), us, SendAll(s, prio, e, ms));
  }

  /** Any number of blocking sends, then any number of receives. */
  function SendThenReceive(s: State, prio: Priorities, e: nat, ms: seq<Message>, rs: seq<Receiver>): State
    requires Inv(s, prio) && e in s.endpoints && s.endpoints[e].state != EpRecv && Apart(s, Senders(ms), Threads(rs))
  {
    SendersLeaveFree(s, prio, e, ms, Threads(rs));
    ReceiveAll(SendAll(s, prio, e, ms), prio, e, rs)
  }

  lemma SendersAreReady(s: State, prio: Priorities, e: nat, ms: seq<Message>, us: seq<nat>)
    requires Inv(s, prio) && e in s.endpoints && s.endpoints[e].state != EpRecv && Apart(s, Senders(ms), us)
    ensures var d := SendAll(s, prio, e, ms);
            && Ready(d.threads, d.endpoints[e].queue, us)
            && (d.endpoints[e].queue != [] ==> d.endpoints[e].state == EpSend)
  {
    var d := SendAll(s, prio, e, ms);
    SendersLeaveFree(s, prio, e, ms, us);
    EndpointPart(d, prio, e);
    EndpointPart(s, prio, e);
    AllSendersWait(s, prio, e, ms);
    hide Inv, SendAll, Set, InsertAll, Ordered;
    forall x | x in d.endpoints[e].queue ensures x in d.threads && d.threads[x].state.OnSend? {
      MessagesWait(s, prio, e, ms, x);
    }
  }

  /**
   * From any state without waiting receivers: the senders wait in the order of priority, and for each priority in the
   * order of arrival; the receivers then get their messages in that order, one each, and the other senders still wait.
   */
  lemma SendersServedInOrder(s: State, prio: Priorities, e: nat, ms: seq<Message>, rs: seq<Receiver>, i: nat)
    requires Inv(s, prio) && e in s.endpoints && s.endpoints[e].state != EpRecv && Apart(s, Senders(ms), Threads(rs))
    requires i < |rs| <= |s.endpoints[e].queue| + |ms|
    ensures var sent, done := SendAll(s, prio, e, ms), SendThenReceive(s, prio, e, ms, rs);
            var queue := sent.endpoints[e].queue;
            && InOrder(prio, queue, s.endpoints[e].queue + Senders(ms)) && done.endpoints[e].queue == queue[|rs|..]
            && rs[i].t in done.threads && HasMessage(s, ms, queue[i], done.threads[rs[i].t].badge)
            && queue[i] in sent.threads && queue[i] in done.threads && sent.threads[queue[i]].state.OnSend?
            && done.threads[queue[i]].state == Taken(sent.threads[queue[i]], rs[i].hasReply)
  {
    var sent := SendAll(s, prio, e, ms);
    AllSendersWait(s, prio, e, ms);
    InsertAllInOrder(s, prio, e, Senders(ms));
    SendersLeaveFree(s, prio, e, ms, Threads(rs));
    SendersAreReady(s, prio, e, ms, Threads(rs));
    hide Inv, SendAll, Set, InsertAll, Ready, Free, Distinct, Ordered, OfPriority, TakeAll, Taken, HasMessage;
    assert |sent.endpoints[e].queue| == |s.endpoints[e].queue + Senders(ms)|;
    AllReceiversTake(sent, prio, e, rs);
    TakeAllAt(sent.threads, sent.endpoints[e].queue, rs, i);
    MessagesWait(s, prio, e, ms, sent.endpoints[e].queue[i]);
  }

  // ------------------------------------------------------------------ receivers first

  /** What becomes of a sender that hands its message to a waiting receiver. */
  function Given(t: Tcb, m: Message, hasReply: bool): Tcb {
    if m.call || t.fault then t.(state := AfterSend(t, m.call, m.grant || m.grantReply, hasReply)) else t
  }

  function GiveOne(threads: map<nat, Tcb>, x: nat, m: Message): map<nat, Tcb> {
    if x in threads && m.from in threads && threads[x].state.OnReceive?
    then threads[x := threads[x].(state := Running, badge := m.badge)]
                [m.from := Given(threads[m.from], m, threads[x].state.hasReply)]
    else threads
  }

  function GiveAll(threads: map<nat, Tcb>, q: seq<nat>, ms: seq<Message>): map<nat, Tcb>
    requires |ms| <= |q|
    decreases |ms|
  {
    if ms == [] then threads else GiveAll(GiveOne(threads, q[0], ms[0]), q[1..], ms[1..])
  }

  /** The threads of q wait to receive, and none of ts does. */
  predicate Listening(threads: map<nat, Tcb>, q: seq<nat>, ts: seq<nat>) {
    && Distinct(q) && Distinct(ts)
    && (forall x | x in q :: x in threads && threads[x].state.OnReceive?)
    && (forall x | x in ts :: x in threads && x !in q)
  }

  lemma ListeningAfter(threads: map<nat, Tcb>, q: seq<nat>, ms: seq<Message>)
    requires Listening(threads, q, Senders(ms)) && ms != [] && q != []
    ensures Listening(GiveOne(threads, q[0], ms[0]), q[1..], Senders(ms[1..]))
    ensures q[0] !in Senders(ms[1..]) && ms[0].from !in q && ms[0].from !in Senders(ms[1..]) && q[0] !in q[1..]
    ensures q[0] in threads && ms[0].from in threads && threads[q[0]].state.OnReceive?
  {
    var ts := Senders(ms);
    TailDistinct(q);
    TailDistinct(ts);
    assert ts[0] in ts && q[0] in q && ts[1..] == Senders(ms[1..]);
    assert forall x | x in ts[1..] :: x in ts;
    assert forall x | x in q[1..] :: x in q;
  }

  lemma {:induction false} GiveAllElse(threads: map<nat, Tcb>, q: seq<nat>, ms: seq<Message>, x: nat)
    requires |ms| <= |q| && Listening(threads, q, Senders(ms)) && x in threads && x !in q && x !in Senders(ms)
    ensures var d := GiveAll(threads, q, ms); d.Keys == threads.Keys && d[x] == threads[x]
    decreases |ms|
  {
    if ms != [] {
      ListeningAfter(threads, q, ms);
      hide Listening;
      assert Senders(ms)[0] == ms[0].from && Senders(ms)[1..] == Senders(ms[1..]);
      GiveAllElse(GiveOne(threads, q[0], ms[0]), q[1..], ms[1..], x);
    }
  }

  /** The i-th message goes to the i-th receiver. */
  lemma {:induction false} GiveAllAt(threads: map<nat, Tcb>, q: seq<nat>, ms: seq<Message>, i: nat)
    requires |ms| <= |q| && Listening(threads, q, Senders(ms)) && i < |ms|
    ensures var d := GiveAll(threads, q, ms);
            && d.Keys == threads.Keys && ms[i].from in threads && q[i] in threads && threads[q[i]].state.OnReceive?
            && d[q[i]] == threads[q[i]].(state := Running, badge := ms[i].badge)
            && d[ms[i].from] == Given(threads[ms[i].from], ms[i], threads[q[i]].state.hasReply)
    decreases |ms|
  {
    ListeningAfter(threads, q, ms);
    hide Listening, Given;
    var d1 := GiveOne(threads, q[0], ms[0]);
    if i == 0 {
      GiveAllElse(d1, q[1..], ms[1..], q[0]);
      GiveAllElse(d1, q[1..], ms[1..], ms[0].from);
    } else {
      GiveAllAt(d1, q[1..], ms[1..], i - 1);
      assert Senders(ms[1..])[i - 1] == ms[i].from && q[1..][i - 1] == q[i] && ms[1..][i - 1] == ms[i];
      assert q[1..][i - 1] in q[1..] && q[i] in q && Senders(ms[1..])[i - 1] in Senders(ms[1..]);
    }
  }

  lemma {:induction false} AllSendersGive(s: State, prio: Priorities, e: nat, ms: seq<Message>)
    requires Inv(s, prio) && e in s.endpoints && Free(s, Senders(ms)) && |ms| <= |s.endpoints[e].queue|
    requires ms != [] ==> s.endpoints[e].state == EpRecv
    ensures var d, q := SendAll(s, prio, e, ms), s.endpoints[e].queue;
            && d.endpoints == s.endpoints[e := d.endpoints[e]] && d.ntfns == s.ntfns
            && d.endpoints[e].queue == q[|ms|..] && d.threads == GiveAll(s.threads, q, ms)
    decreases |ms|
  {
    hide Inv, SendOne, Free;
    if ms != [] {
      SendStep(s, prio, e, ms);
      SenderGives(s, prio, e, ms[0]);
      var x := s.endpoints[e].queue[0];
      assert SendOne(s, prio, e, ms[0]).threads == GiveOne(s.threads, x, ms[0]);
      hide AfterSend, GiveOne;
      AllSendersGive(SendOne(s, prio, e, ms[0]), prio, e, ms[1..]);
    }
  }

  lemma ReceiversLeaveFree(s: State, prio: Priorities, e: nat, rs: seq<Receiver>, us: seq<nat>)
    requires Inv(s, prio) && e in s.endpoints && s.endpoints[e].state != EpSend && Apart(s, Threads(rs), us)
    ensures Free(ReceiveAll(s, prio, e, rs), us)
  {
    hide Inv;
    AllReceiversWait(s, prio, e, rs);
    StillFree(s, Threads(rs), WaitsToReceive(rs, e), us, ReceiveAll(s, prio, e, rs));
  }

  /** Any number of blocking receives, then any number of sends. */
  function ReceiveThenSend(s: State, prio: Priorities, e: nat, rs: seq<Receiver>, ms: seq<Message>): State
    requires Inv(s, prio) && e in s.endpoints && s.endpoints[e].state != EpSend && Apart(s, Threads(rs), Senders(ms))
  {
    ReceiversLeaveFree(s, prio, e, rs, Senders(ms));
    SendAll(ReceiveAll(s, prio, e, rs), prio, e, ms)
  }

  lemma ReceiversListen(s: State, prio: Priorities, e: nat, rs: seq<Receiver>, us: seq<nat>)
    requires Inv(s, prio) && e in s.endpoints && s.endpoints[e].state != EpSend && Apart(s, Threads(rs), us)
    ensures var d := ReceiveAll(s, prio, e, rs);
            && Listening(d.threads, d.endpoints[e].queue, us)
            && (d.endpoints[e].queue != [] ==> d.endpoints[e].state == EpRecv)
  {
    var d := ReceiveAll(s, prio, e, rs);
    ReceiversLeaveFree(s, prio, e, rs, us);
    EndpointPart(d, prio, e);
    EndpointPart(s, prio, e);
    AllReceiversWait(s, prio, e, rs);
    hide Inv, ReceiveAll, Set, InsertAll, Ordered;
  }

  /**
   * From any state without waiting senders: the receivers wait in the order of priority, and for each priority in the
   * order of arrival; the messages then go to them in that order, one each, and the other receivers still wait.
   */
  lemma ReceiversServedInOrder(s: State, prio: Priorities, e: nat, rs: seq<Receiver>, ms: seq<Message>, i: nat)
    requires Inv(s, prio) && e in s.endpoints && s.endpoints[e].state != EpSend && Apart(s, Threads(rs), Senders(ms))
    requires i < |ms| <= |s.endpoints[e].queue| + |rs|
    ensures var ready, done := ReceiveAll(s, prio, e, rs), ReceiveThenSend(s, prio, e, rs, ms);
            var queue := ready.endpoints[e].queue;
            && InOrder(prio, queue, s.endpoints[e].queue + Threads(rs)) && done.endpoints[e].queue == queue[|ms|..]
            && queue[i] in ready.threads && queue[i] in done.threads && ms[i].from in done.threads
            && ready.threads[queue[i]].state.OnReceive? && ms[i].from in ready.threads
            && done.threads[queue[i]] == ready.threads[queue[i]].(state := Running, badge := ms[i].badge)
            && done.threads[ms[i].from] ==
               Given(ready.threads[ms[i].from], ms[i], ready.threads[queue[i]].state.hasReply)
  {
    var ready := ReceiveAll(s, prio, e, rs);
    AllReceiversWait(s, prio, e, rs);
    InsertAllInOrder(s, prio, e, Threads(rs));
    ReceiversLeaveFree(s, prio, e, rs, Senders(ms));
    ReceiversListen(s, prio, e, rs, Senders(ms));
    hide Inv, ReceiveAll, Set, InsertAll, Listening, Free, Distinct, Ordered, OfPriority, GiveAll, Given;
    assert |ready.endpoints[e].queue| == |s.endpoints[e].queue + Threads(rs)|;
    AllSendersGive(ready, prio, e, ms);
    GiveAllAt(ready.threads, ready.endpoints[e].queue, ms, i);
  }
}
