/**
 * The big kernel lock: a CLH queue lock over n cores, one step for each access to shared memory,
 * in any interleaving.
 */
module ClhLock {

  /** Where a core is: outside; has marked its request; has enqueued it; holds the lock; has passed the lock on. */
  datatype Pc = Idle | Armed | Waiting | Critical | Released

  /**
   * pending: the state word of each of the n + 1 request records; watch, myreq: the two record
   * indices of each node; tail: the record at the end of the queue.
   * The rest only records history: arrivals and entries list the cores that exchanged the tail and
   * those that entered, exits counts those that passed the lock on, and ticket is the position of
   * each core's latest arrival.
   */
  datatype State = State(
    pending: seq<bool>,
    watch: seq<nat>,
    myreq: seq<nat>,
    tail: nat,
    pc: seq<Pc>,
    arrivals: seq<nat>,
    entries: seq<nat>,
    exits: nat,
    ticket: seq<nat>)

  datatype Step = Arm(core: nat) | Exchange(core: nat) | Spin(core: nat) | Enter(core: nat)
                | Grant(core: nat) | Recycle(core: nat)

  predicate Typed(s: State) {
    && |s.watch| == |s.myreq| == |s.ticket| == |s.pc|
    && |s.pending| == |s.pc| + 1
    && s.tail < |s.pending|
    && (forall c :: 0 <= c < |s.pc| ==> s.myreq[c] < |s.pending|)
    && (forall c :: 0 <= c < |s.pc| ==> s.watch[c] < |s.pending|)
    && s.exits <= |s.arrivals|
    && (forall i :: 0 <= i < |s.arrivals| ==> s.arrivals[i] < |s.pc|)
  }

  predicate Enabled(s: State, step: Step)
    requires Typed(s)
  {
    && step.core < |s.pc|
    && match step
       case Arm(c) => s.pc[c] == Idle
       case Exchange(c) => s.pc[c] == Armed
       case Spin(c) => s.pc[c] == Waiting && s.pending[s.watch[c]]
       case Enter(c) => s.pc[c] == Waiting && !s.pending[s.watch[c]]
       case Grant(c) => s.pc[c] == Critical
       case Recycle(c) => s.pc[c] == Released
  }

  function Apply(s: State, step: Step): State
    requires Typed(s) && Enabled(s, step)
  {
    match step
    case Arm(c) => s.(pending := s.pending[s.myreq[c] := true], pc := s.pc[c := Armed])
    case Exchange(c) =>
      s.(watch := s.watch[c := s.tail], tail := s.myreq[c], pc := s.pc[c := Waiting],
         arrivals := s.arrivals + [c], ticket := s.ticket[c := |s.arrivals|])
    case Spin(c) => s
    case Enter(c) => s.(pc := s.pc[c := Critical], entries := s.entries + [c])
    case Grant(c) =>
      s.(pending := s.pending[s.myreq[c] := false], pc := s.pc[c := Released], exits := s.exits + 1)
    case Recycle(c) => s.(myreq := s.myreq[c := s.watch[c]], pc := s.pc[c := Idle])
  }

  // ------------------------------------------------------------------ the invariant

  predicate Queued(p: Pc) {
    p == Waiting || p == Critical
  }

  /** The record a core will use for its next request; a releasing core has already handed its old one over. */
  function Own(s: State, c: nat): (r: nat)
    requires Typed(s) && c < |s.pc|
    ensures r < |s.pending|
  {
    if s.pc[c] == Released then s.watch[c] else s.myreq[c]
  }

  /** The record no core owns: the one through which the lock was last passed on. */
  function Spare(s: State): (r: nat)
    requires Typed(s)
    ensures r < |s.pending|
  {
    if |s.arrivals| == s.exits then s.tail else s.watch[s.arrivals[s.exits]]
  }

  /** Every core owns one of the n + 1 records, no record is owned twice, and one is left over. */
  predicate Ownership(s: State)
    requires Typed(s)
  {
    && (forall c, d :: 0 <= c < d < |s.pc| ==> Own(s, c) != Own(s, d))
    && (forall c :: 0 <= c < |s.pc| ==> Own(s, c) != Spare(s))
  }

  /** The cores that arrived and have not passed the lock on are the ones that wait or hold it, each once. */
  predicate Membership(s: State)
    requires Typed(s)
  {
    && (forall i :: s.exits <= i < |s.arrivals| ==> InTurn(s, i))
    && (forall c :: 0 <= c < |s.pc| && Queued(s.pc[c]) ==>
          s.exits <= s.ticket[c] < |s.arrivals| && s.arrivals[s.ticket[c]] == c)
  }

  predicate InTurn(s: State, i: nat)
    requires Typed(s) && i < |s.arrivals|
  {
    Queued(s.pc[s.arrivals[i]]) && s.ticket[s.arrivals[i]] == i
  }

  /** Each queued core watches its predecessor's record, and the tail is the last one's record. */
  predicate Linked(s: State)
    requires Typed(s)
  {
    && (forall i :: s.exits < i < |s.arrivals| ==> s.watch[s.arrivals[i]] == s.myreq[s.arrivals[i - 1]])
    && (s.exits < |s.arrivals| ==> s.tail == s.myreq[s.arrivals[|s.arrivals| - 1]])
  }

  /** A record is pending exactly while its owner has asked for the lock and not passed it on. */
  predicate States(s: State)
    requires Typed(s)
  {
    && (forall c :: 0 <= c < |s.pc| ==> (s.pending[Own(s, c)] <==> s.pc[c] == Armed || Queued(s.pc[c])))
    && !s.pending[Spare(s)]
  }

  /** Only the head of the queue may hold the lock, and the log of entries says whether it does. */
  predicate Entered(s: State)
    requires Typed(s)
  {
    && (forall i :: s.exits < i < |s.arrivals| ==> s.pc[s.arrivals[i]] != Critical)
    && s.entries == s.arrivals[..if s.exits < |s.arrivals| && s.pc[s.arrivals[s.exits]] == Critical
                                 then s.exits + 1 else s.exits]
  }

  predicate Inv(s: State) {
    Typed(s) && Ownership(s) && Membership(s) && Linked(s) && States(s) && Entered(s)
  }

  // ------------------------------------------------------------------ every step keeps it

  lemma QueuedIsPending(s: State, i: nat)
    requires Inv(s) && s.exits <= i < |s.arrivals|
    ensures s.pending[s.myreq[s.arrivals[i]]]
  {
    assert InTurn(s, i);
    assert s.pending[Own(s, s.arrivals[i])];
  }

  /** A waiting core whose predecessor's record is granted is the first in the queue. */
  lemma WatchedHead(s: State, c: nat)
    requires Inv(s) && c < |s.pc| && s.pc[c] == Waiting && !s.pending[s.watch[c]]
    ensures s.exits < |s.arrivals| && s.arrivals[s.exits] == c
  {
    var i := s.ticket[c];
    if i > s.exits { QueuedIsPending(s, i - 1); }
  }

  lemma CriticalIsHead(s: State, c: nat)
    requires Inv(s) && c < |s.pc| && s.pc[c] == Critical
    ensures s.exits < |s.arrivals| && s.arrivals[s.exits] == c
  {
  }

  /** Only passing the lock on changes who owns what: the core swaps its record for the spare one. */
  lemma OwnAfter(s: State, step: Step, d: nat)
    requires Inv(s) && Enabled(s, step) && d < |s.pc|
    ensures Typed(Apply(s, step)) && |Apply(s, step).pc| == |s.pc|
    ensures Own(Apply(s, step), d) == if step.Grant? && d == step.core then Spare(s) else Own(s, d)
  {
    hide Ownership, States, Linked;
    if step.Grant? { CriticalIsHead(s, step.core); }
  }

  lemma SpareAfter(s: State, step: Step)
    requires Inv(s) && Enabled(s, step)
    ensures Typed(Apply(s, step)) && |Apply(s, step).pc| == |s.pc|
    ensures Spare(Apply(s, step)) == if step.Grant? then Own(s, step.core) else Spare(s)
  {
    hide Ownership, States;
    if s.exits < |s.arrivals| { assert InTurn(s, s.exits); }
    if step.Grant? {
      CriticalIsHead(s, step.core);
      if s.exits + 1 < |s.arrivals| {
        assert s.watch[s.arrivals[s.exits + 1]] == s.myreq[s.arrivals[s.exits + 1 - 1]];
      }
    }
  }

  lemma OwnershipKept(s: State, step: Step)
    requires Inv(s) && Enabled(s, step)
    ensures Typed(Apply(s, step)) && Ownership(Apply(s, step))
  {
    hide Own, Spare, Apply, Membership, Linked, States, Entered;
    var t := Apply(s, step);
    SpareAfter(s, step);
    forall c, d | 0 <= c < d < |t.pc|
      ensures Own(t, c) != Own(t, d)
    {
      OwnAfter(s, step, c);
      OwnAfter(s, step, d);
    }
    forall c | 0 <= c < |t.pc|
      ensures Own(t, c) != Spare(t)
    {
      OwnAfter(s, step, c);
    }
  }

  lemma StatesKept(s: State, step: Step)
    requires Inv(s) && Enabled(s, step)
    ensures Typed(Apply(s, step)) && States(Apply(s, step))
  {
    hide Own, Spare, Membership, Linked, Entered;
    var t := Apply(s, step);
    SpareAfter(s, step);
    OwnIsMyreq(s, step.core);
    assert !t.pending[Spare(t)];
    forall c | 0 <= c < |t.pc|
      ensures t.pending[Own(t, c)] <==> t.pc[c] == Armed || Queued(t.pc[c])
    {
      OwnAfter(s, step, c);
      if c != step.core { OwnsDiffer(s, c, step.core); }
    }
  }

  lemma OwnIsMyreq(s: State, c: nat)
    requires Typed(s) && c < |s.pc|
    ensures s.pc[c] != Released ==> Own(s, c) == s.myreq[c]
  {
  }

  lemma OwnsDiffer(s: State, c: nat, d: nat)
    requires Typed(s) && Ownership(s) && c < |s.pc| && d < |s.pc| && c != d
    ensures Own(s, c) != Own(s, d)
  {
    if d < c { assert Own(s, d) != Own(s, c); }
  }

  lemma MembershipKept(s: State, step: Step)
    requires Inv(s) && Enabled(s, step)
    ensures Typed(Apply(s, step)) && Membership(Apply(s, step))
  {
    hide Own, Spare, Ownership, Linked, States;
    var t := Apply(s, step);
    SpareAfter(s, step);
    if step.Enter? { WatchedHead(s, step.core); }
    if step.Grant? { CriticalIsHead(s, step.core); }
    forall i | t.exits <= i < |t.arrivals|
      ensures InTurn(t, i)
    {
      if i < |s.arrivals| { assert InTurn(s, i); }
    }
  }

  lemma LinkedKept(s: State, step: Step)
    requires Inv(s) && Enabled(s, step)
    ensures Typed(Apply(s, step)) && Linked(Apply(s, step))
  {
    hide Own, Spare, Ownership, States, Entered;
    var t := Apply(s, step);
    SpareAfter(s, step);
    forall i | t.exits < i < |t.arrivals|
      ensures t.watch[t.arrivals[i]] == t.myreq[t.arrivals[i - 1]]
    {
      assert InTurn(s, i - 1);
      if i < |s.arrivals| { assert InTurn(s, i); }
    }
    if s.exits < |s.arrivals| { assert InTurn(s, |s.arrivals| - 1); }
  }

  lemma EnteredKept(s: State, step: Step)
    requires Inv(s) && Enabled(s, step)
    ensures Typed(Apply(s, step)) && Entered(Apply(s, step))
  {
    hide Own, Spare, Ownership, States, Linked;
    var t := Apply(s, step);
    SpareAfter(s, step);
    if s.exits < |s.arrivals| { assert InTurn(s, s.exits); }
    if step.Enter? { WatchedHead(s, step.core); }
    if step.Grant? { CriticalIsHead(s, step.core); }
    forall i | t.exits < i < |t.arrivals|
      ensures t.pc[t.arrivals[i]] != Critical
    {
      if i < |s.arrivals| { assert InTurn(s, i); }
    }
  }

  lemma StepKeepsInv(s: State, step: Step)
    requires Inv(s) && Enabled(s, step)
    ensures Inv(Apply(s, step))
  {
    hide Apply, Typed, Ownership, Membership, Linked, States, Entered;
    OwnershipKept(s, step);
    MembershipKept(s, step);
    LinkedKept(s, step);
    StatesKept(s, step);
    EnteredKept(s, step);
  }

  // ------------------------------------------------------------------ initial state and runs

  function Initial(n: nat): State {
    State(seq(n + 1, _ => false), seq(n, _ => 0), seq(n, i => i), n, seq(n, _ => Idle), [], [], 0, seq(n, _ => 0))
  }

  lemma InitialInv(n: nat)
    ensures Inv(Initial(n))
  {
  }

  /** clh_lock_init: zeroed memory, then one record for each node, and the last one as the granted tail. */
  method Init(n: nat) returns (s: State)
    ensures s == Initial(n) && Inv(s)
  {
    var myreq := seq(n, _ => 0);
    var pending := seq(n + 1, _ => false);
    for i := 0 to n
      invariant |myreq| == n && forall k :: 0 <= k < i ==> myreq[k] == k
    {
      myreq := myreq[i := i];
    }
    pending := pending[n := false];
    s := State(pending, seq(n, _ => 0), myreq, n, seq(n, _ => Idle), [], [], 0, seq(n, _ => 0));
    assert s.myreq == Initial(n).myreq && s.pending == Initial(n).pending;
    InitialInv(n);
  }

  predicate IsRun(s: State, run: seq<Step>)
    decreases |run|
  {
    run == [] || (Typed(s) && Enabled(s, run[0]) && IsRun(Apply(s, run[0]), run[1..]))
  }

  function Final(s: State, run: seq<Step>): State
    requires IsRun(s, run)
    decreases |run|
  {
    if run == [] then s else Final(Apply(s, run[0]), run[1..])
  }

  lemma {:induction false} RunKeepsInv(s: State, run: seq<Step>)
    requires Inv(s) && IsRun(s, run)
    ensures Inv(Final(s, run))
    decreases |run|
  {
    hide Inv, Typed, Enabled, Apply;
    if run != [] {
      InvTyped(s);
      StepKeepsInv(s, run[0]);
      RunKeepsInv(Apply(s, run[0]), run[1..]);
    }
  }

  lemma InvTyped(s: State)
    requires Inv(s)
    ensures Typed(s)
  {
  }

  // ------------------------------------------------------------------ what the lock guarantees

  /** At most one core holds the lock, in every reachable state. */
  lemma MutualExclusion(n: nat, run: seq<Step>, c: nat, d: nat)
    requires IsRun(Initial(n), run)
    requires c < |Final(Initial(n), run).pc| && d < |Final(Initial(n), run).pc|
    requires Final(Initial(n), run).pc[c] == Critical && Final(Initial(n), run).pc[d] == Critical
    ensures c == d
  {
    InitialInv(n);
    RunKeepsInv(Initial(n), run);
    CriticalIsHead(Final(Initial(n), run), c);
    CriticalIsHead(Final(Initial(n), run), d);
  }

  /** Cores enter in the order in which they exchanged the tail. */
  lemma FirstComeFirstServed(n: nat, run: seq<Step>)
    requires IsRun(Initial(n), run)
    ensures Final(Initial(n), run).entries <= Final(Initial(n), run).arrivals
  {
    InitialInv(n);
    RunKeepsInv(Initial(n), run);
  }

  /** clh_is_self_in_queue tells a core, outside the release window, whether it has asked for the lock. */
  lemma SelfInQueue(n: nat, run: seq<Step>, c: nat)
    requires IsRun(Initial(n), run) && c < |Final(Initial(n), run).pc|
    requires Final(Initial(n), run).pc[c] != Released
    ensures var s := Final(Initial(n), run);
            && Inv(s)
            && (s.pending[s.myreq[c]] <==> s.pc[c] != Idle)
  {
    InitialInv(n);
    RunKeepsInv(Initial(n), run);
    var s := Final(Initial(n), run);
    assert s.pending[Own(s, c)] <==> s.pc[c] == Armed || Queued(s.pc[c]);
  }

  /** While any core waits or holds the lock, the first in the queue holds it or can enter at once. */
  lemma HeadCanMove(s: State)
    requires Inv(s) && s.exits < |s.arrivals|
    ensures var h := s.arrivals[s.exits];
            s.pc[h] == Critical || Enabled(s, Enter(h))
  {
    assert InTurn(s, s.exits);
  }

  // ------------------------------------------------------------------ bounded waiting

  lemma TurnAfterStep(s: State, step: Step, c: nat)
    requires Inv(s) && Enabled(s, step) && c < |s.pc| && s.pc[c] == Waiting
    ensures var t := Apply(s, step);
            && |t.pc| == |s.pc| == |t.ticket| && s.arrivals <= t.arrivals && s.entries <= t.entries
            && (|t.entries| <= s.ticket[c] ==> t.pc[c] == Waiting && t.ticket[c] == s.ticket[c])
  {
    if step.Enter? {
      WatchedHead(s, step.core);
      assert InTurn(s, s.exits);
    }
  }

  /**
   * A core that has exchanged the tail waits for exactly the cores ahead of it: it is still waiting
   * as long as no more than its ticket number of entries have been made, and then it is the one to enter.
   */
  lemma {:induction false} EntersInTurn(s: State, run: seq<Step>, c: nat)
    requires Inv(s) && IsRun(s, run) && c < |s.pc| && s.pc[c] == Waiting
    ensures var t := Final(s, run);
            && |t.pc| == |s.pc| && s.arrivals <= t.arrivals
            && (|t.entries| <= s.ticket[c] ==> t.pc[c] == Waiting)
            && (|t.entries| > s.ticket[c] ==> t.entries[s.ticket[c]] == c)
    decreases |run|
  {
    if run != [] {
      var t := Apply(s, run[0]);
      StepKeepsInv(s, run[0]);
      TurnAfterStep(s, run[0], c);
      if |t.entries| <= s.ticket[c] {
        EntersInTurn(t, run[1..], c);
      } else {
        WaitingTicket(s, c);
        EntryStays(t, run[1..], s.ticket[c], |s.pc|);
        assert t.entries[s.ticket[c]] == t.arrivals[s.ticket[c]];
      }
    } else {
      WaitingTicket(s, c);
    }
  }

  lemma WaitingTicket(s: State, c: nat)
    requires Inv(s) && c < |s.pc| && s.pc[c] == Waiting
    ensures |s.entries| <= s.ticket[c] < |s.arrivals| && s.arrivals[s.ticket[c]] == c
  {
  }

  lemma {:induction false} EntryStays(s: State, run: seq<Step>, k: nat, n: nat)
    requires IsRun(s, run) && k < |s.entries| && |s.pc| == n
    ensures k < |Final(s, run).entries| && Final(s, run).entries[k] == s.entries[k]
    ensures s.arrivals <= Final(s, run).arrivals && |Final(s, run).pc| == n
    decreases |run|
  {
    if run != [] { EntryStays(Apply(s, run[0]), run[1..], k, n); }
  }

  // ------------------------------------------------------------------ progress

  /** Steps a core still has to take until it is outside again. */
  function Rank(p: Pc): nat {
    match p
    case Idle => 0
    case Armed => 4
    case Waiting => 3
    case Critical => 2
    case Released => 1
  }

  function Work(pc: seq<Pc>): nat {
    if pc == [] then 0 else Rank(pc[0]) + Work(pc[1..])
  }

  lemma {:induction false} WorkUpdate(pc: seq<Pc>, c: nat, p: Pc)
    requires c < |pc|
    ensures Work(pc[c := p]) == Work(pc) - Rank(pc[c]) + Rank(p)
  {
    if c == 0 {
      assert pc[0 := p][1..] == pc[1..];
    } else {
      assert pc[c := p][1..] == pc[1..][c - 1 := p];
      WorkUpdate(pc[1..], c - 1, p);
    }
  }

  lemma {:induction false} BusyCore(pc: seq<Pc>) returns (c: nat)
    requires Work(pc) > 0
    ensures c < |pc| && pc[c] != Idle
  {
    if pc[0] != Idle {
      c := 0;
    } else {
      var d := BusyCore(pc[1..]);
      c := d + 1;
    }
  }

  /** A core is never stuck and never has a choice: in every state exactly one of its steps can be taken. */
  lemma OneStepEach(s: State, c: nat) returns (step: Step)
    requires Typed(s) && c < |s.pc|
    ensures step.core == c && Enabled(s, step)
    ensures forall other: Step :: other.core == c && Enabled(s, other) ==> other == step
  {
    match s.pc[c] {
      case Idle => step := Arm(c);
      case Armed => step := Exchange(c);
      case Waiting => step := if s.pending[s.watch[c]] then Spin(c) else Enter(c);
      case Critical => step := Grant(c);
      case Released => step := Recycle(c);
    }
  }

  /** A busy system always has a step that brings some core closer to the outside. */
  lemma SomeStep(s: State) returns (step: Step)
    requires Inv(s) && Work(s.pc) > 0
    ensures Enabled(s, step) && !step.Arm? && !step.Spin?
    ensures Work(Apply(s, step).pc) == Work(s.pc) - 1
  {
    var c := BusyCore(s.pc);
    match s.pc[c] {
      case Armed => step := Exchange(c);
      case Critical => step := Grant(c);
      case Released => step := Recycle(c);
      case Waiting =>
        HeadCanMove(s);
        var h := s.arrivals[s.exits];
        assert InTurn(s, s.exits);
        step := if s.pc[h] == Critical then Grant(h) else Enter(h);
    }
    WorkUpdate(s.pc, step.core, Apply(s, step).pc[step.core]);
  }

  /** No deadlock: from every reachable state the pending requests can all be served, in exactly Work steps. */
  lemma {:induction false} Drains(s: State) returns (run: seq<Step>)
    requires Inv(s)
    ensures IsRun(s, run) && |run| == Work(s.pc)
    ensures Work(Final(s, run).pc) == 0
    decreases Work(s.pc)
  {
    if Work(s.pc) == 0 {
      run := [];
    } else {
      var step := SomeStep(s);
      StepKeepsInv(s, step);
      var rest := Drains(Apply(s, step));
      run := [step] + rest;
      assert run[1..] == rest;
      InvTyped(s);
    }
  }

  function Count(run: seq<Step>, arm: bool): nat {
    if run == [] then 0
    else (if run[0].Spin? || run[0].Arm? != arm then 0 else 1) + Count(run[1..], arm)
  }

  /** Bookkeeping of work: spinning aside, a request costs the step that makes it and four more. */
  lemma {:induction false} StepsPerRequest(s: State, run: seq<Step>)
    requires IsRun(s, run)
    ensures Work(Final(s, run).pc) + Count(run, false) == Work(s.pc) + 4 * Count(run, true)
    decreases |run|
  {
    if run != [] {
      var t := Apply(s, run[0]);
      if !run[0].Spin? { WorkUpdate(s.pc, run[0].core, t.pc[run[0].core]); }
      StepsPerRequest(t, run[1..]);
    }
  }

  // ------------------------------------------------------------------ bounded waiting when every core keeps stepping

  /** How many rounds a waiting core waits at most: each core ahead of it has to enter and to pass the lock on. */
  function Turns(s: State, c: nat): nat
    requires Inv(s) && c < |s.pc| && s.pc[c] == Waiting
  {
    WaitingTicket(s, c);
    2 * (s.ticket[c] - s.exits) + if s.pc[s.arrivals[s.exits]] == Waiting then 1 else 0
  }

  /** The k-th entry has been made, or core c still waits for it, for at most m rounds. */
  predicate Within(s: State, c: nat, k: nat, m: nat) {
    || k < |s.entries|
    || (Inv(s) && c < |s.pc| && s.pc[c] == Waiting && s.ticket[c] == k && Turns(s, c) <= m)
  }

  /** No step makes a core wait longer, and a step of the first core in the queue shortens the wait. */
  lemma StepTurns(s: State, step: Step, c: nat)
    requires Inv(s) && Enabled(s, step) && c < |s.pc| && s.pc[c] == Waiting
    ensures var t := Apply(s, step);
            || s.ticket[c] < |t.entries|
            || (&& Inv(t) && c < |t.pc| && t.pc[c] == Waiting && t.ticket[c] == s.ticket[c]
                && Turns(t, c) <= Turns(s, c)
                && (step.core == s.arrivals[s.exits] ==> Turns(t, c) < Turns(s, c))
                && (Turns(t, c) == Turns(s, c) ==> t.exits == s.exits && s.arrivals <= t.arrivals))
  {
    StepKeepsInv(s, step);
    TurnAfterStep(s, step, c);
    WaitingTicket(s, c);
    assert InTurn(s, s.exits);
    HeadCanMove(s);
    if step.Grant? { CriticalIsHead(s, step.core); }
    if step.Enter? { WatchedHead(s, step.core); }
    if |Apply(s, step).entries| <= s.ticket[c] { WaitingTicket(Apply(s, step), c); }
  }

  lemma {:induction false} RunTurns(s: State, run: seq<Step>, c: nat, k: nat, m: nat)
    requires IsRun(s, run) && Within(s, c, k, m)
    ensures Within(Final(s, run), c, k, m)
    decreases |run|
  {
    if k < |s.entries| {
      EntryStays(s, run, k, |s.pc|);
    } else if run != [] {
      StepTurns(s, run[0], c);
      RunTurns(Apply(s, run[0]), run[1..], c, k, m);
    }
  }

  /** A run in which the first core in the queue takes a step. */
  lemma {:induction false} RoundTurns(s: State, run: seq<Step>, c: nat, i: nat)
    requires Inv(s) && IsRun(s, run) && c < |s.pc| && s.pc[c] == Waiting
    requires i < |run| && s.exits < |s.arrivals| && run[i].core == s.arrivals[s.exits]
    ensures Turns(s, c) > 0 && Within(Final(s, run), c, s.ticket[c], Turns(s, c) - 1)
    decreases |run|
  {
    hide Apply, Ownership, Membership, Linked, States, Entered;
    var t := Apply(s, run[0]);
    StepTurns(s, run[0], c);
    WaitingTicket(s, c);
    if s.ticket[c] < |t.entries| || Turns(t, c) < Turns(s, c) {
      RunTurns(t, run[1..], c, s.ticket[c], Turns(s, c) - 1);
    } else {
      RoundTurns(t, run[1..], c, i - 1);
    }
  }

  predicate Moves(run: seq<Step>, c: nat) {
    exists i :: 0 <= i < |run| && run[i].core == c
  }

  /** Every core takes a step. */
  predicate IsRound(run: seq<Step>, n: nat) {
    forall c: nat :: c < n ==> Moves(run, c)
  }

  function Joined(rounds: seq<seq<Step>>): seq<Step> {
    if rounds == [] then [] else rounds[0] + Joined(rounds[1..])
  }

  lemma {:induction false} RunSplits(s: State, a: seq<Step>, b: seq<Step>)
    requires IsRun(s, a + b)
    ensures IsRun(s, a) && IsRun(Final(s, a), b) && Final(s, a + b) == Final(Final(s, a), b)
    decreases |a|
  {
    if a == [] {
      assert a + b == b;
    } else {
      assert (a + b)[1..] == a[1..] + b;
      RunSplits(Apply(s, a[0]), a[1..], b);
    }
  }

  lemma {:induction false} RoundsServe(s: State, rounds: seq<seq<Step>>, c: nat, k: nat, n: nat)
    requires IsRun(s, Joined(rounds)) && Within(s, c, k, |rounds|) && |s.pc| == n
    requires forall r :: r in rounds ==> IsRound(r, n)
    ensures k < |Final(s, Joined(rounds)).entries| || Within(Final(s, Joined(rounds)), c, k, 0)
    decreases |rounds|
  {
    if rounds != [] {
      var first, rest := rounds[0], rounds[1..];
      RunSplits(s, first, Joined(rest));
      if k < |s.entries| {
        EntryStays(s, first, k, n);
      } else {
        WaitingTicket(s, c);
        EntersInTurn(s, first, c);
        var h := s.arrivals[s.exits];
        assert IsRound(first, n) && Moves(first, h);
        var i :| 0 <= i < |first| && first[i].core == h;
        RoundTurns(s, first, c, i);
        LessTurns(Final(s, first), c, k, Turns(s, c) - 1, |rest|);
      }
      RoundsServe(Final(s, first), rest, c, k, n);
    }
  }

  lemma LessTurns(s: State, c: nat, k: nat, m: nat, n: nat)
    requires Within(s, c, k, m) && m <= n
    ensures Within(s, c, k, n)
  {
  }

  /** No waiting core has more than n - 1 cores ahead of it. */
  lemma TurnsBound(s: State, c: nat)
    requires Inv(s) && c < |s.pc| && s.pc[c] == Waiting
    ensures 0 < Turns(s, c) < 2 * |s.pc|
  {
    WaitingTicket(s, c);
    assert InTurn(s, s.exits);
    var queue := s.arrivals[s.exits..];
    forall i, j | 0 <= i < j < |queue| ensures queue[i] != queue[j] {
      assert InTurn(s, s.exits + i) && InTurn(s, s.exits + j);
    }
    FewCores(queue, |s.pc|);
  }

  lemma {:induction false} FewCores(queue: seq<nat>, n: nat)
    requires forall i, j :: 0 <= i < j < |queue| ==> queue[i] != queue[j]
    requires forall i :: 0 <= i < |queue| ==> queue[i] < n
    ensures |queue| <= n
  {
    assert |queue| > 0 ==> queue[0] < n;
    if n > 0 {
      if k :| 0 <= k < |queue| && queue[k] == n - 1 {
        var rest := queue[..k] + queue[k + 1..];
        forall i, j | 0 <= i < j < |rest| ensures rest[i] != rest[j] {
          assert rest[i] == queue[if i < k then i else i + 1] && rest[j] == queue[if j < k then j else j + 1];
        }
        forall i | 0 <= i < |rest| ensures rest[i] < n - 1 {
          assert rest[i] == queue[if i < k then i else i + 1];
        }
        FewCores(rest, n - 1);
      } else {
        FewCores(queue, n - 1);
      }
    }
  }

  /**
   * No starvation: if in each of 2n - 1 rounds every one of the n cores takes a step, be it spinning,
   * then a core that waits at the beginning has had its turn at the end, in whatever order the steps were taken.
   */
  lemma BoundedWaiting(s: State, rounds: seq<seq<Step>>, c: nat)
    requires Inv(s) && c < |s.pc| && s.pc[c] == Waiting && IsRun(s, Joined(rounds))
    requires |rounds| >= 2 * |s.pc| - 1 && forall r :: r in rounds ==> IsRound(r, |s.pc|)
    ensures var t := Final(s, Joined(rounds)); s.ticket[c] < |t.entries| && t.entries[s.ticket[c]] == c
  {
    TurnsBound(s, c);
    RoundsServe(s, rounds, c, s.ticket[c], |s.pc|);
    EntersInTurn(s, Joined(rounds), c);
    var t := Final(s, Joined(rounds));
    if |t.entries| <= s.ticket[c] { TurnsBound(t, c); }
  }
}
