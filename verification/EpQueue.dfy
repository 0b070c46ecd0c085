/** Endpoint queues: threads linked through their endpoint links, ordered by priority. */
module EpQueue {

  /** tcbEPPrev and tcbEPNext; 0 stands for no thread. */
  datatype Link = Link(prev: nat, next: nat)

  datatype Queue = Queue(head: nat, end: nat)

  type Priorities = map<nat, nat>

  function PriorityOf(prio: Priorities, t: nat): nat {
    if t in prio then prio[t] else 0
  }

  function First(s: seq<nat>): nat {
    if s == [] then 0 else s[0]
  }

  function Final(s: seq<nat>): nat {
    if s == [] then 0 else s[|s| - 1]
  }

  predicate Distinct(s: seq<nat>) {
    forall i, j :: 0 <= i < j < |s| ==> s[i] != s[j]
  }

  function NodeAt(s: seq<nat>, i: nat): Link
    requires i < |s|
  {
    Link(if i > 0 then s[i - 1] else 0, if i + 1 < |s| then s[i + 1] else 0)
  }

  /** The queue's ends and links are those of the sequence s. */
  predicate Represents(links: map<nat, Link>, q: Queue, s: seq<nat>) {
    && q == Queue(First(s), Final(s))
    && Distinct(s)
    && (forall i :: 0 <= i < |s| ==> Holds(links, s, i))
  }

  predicate Holds(links: map<nat, Link>, s: seq<nat>, i: nat)
    requires i < |s|
  {
    s[i] != 0 && s[i] in links && links[s[i]] == NodeAt(s, i)
  }

  // ------------------------------------------------------------------ priority order

  /** Higher priorities first. */
  predicate Ordered(prio: Priorities, s: seq<nat>) {
    forall i, j :: 0 <= i < j < |s| ==> PriorityOf(prio, s[i]) >= PriorityOf(prio, s[j])
  }

  /** Where t goes: behind the last thread that has at least its priority. */
  function Position(prio: Priorities, s: seq<nat>, t: nat): (k: nat)
    ensures k <= |s|
    ensures k > 0 ==> PriorityOf(prio, s[k - 1]) >= PriorityOf(prio, t)
    ensures forall i :: k <= i < |s| ==> PriorityOf(prio, s[i]) < PriorityOf(prio, t)
  {
    if s == [] || PriorityOf(prio, s[|s| - 1]) >= PriorityOf(prio, t) then |s|
    else Position(prio, s[..|s| - 1], t)
  }

  function InsertAt(s: seq<nat>, k: nat, t: nat): seq<nat>
    requires k <= |s|
  {
    s[..k] + [t] + s[k..]
  }

  function Insert(prio: Priorities, s: seq<nat>, t: nat): seq<nat> {
    InsertAt(s, Position(prio, s, t), t)
  }

  function Without(s: seq<nat>, k: nat): seq<nat>
    requires k < |s|
  {
    s[..k] + s[k + 1..]
  }

  lemma InsertAtIndex(s: seq<nat>, k: nat, t: nat, i: nat)
    requires k <= |s| && i <= |s|
    ensures InsertAt(s, k, t)[i] == if i < k then s[i] else if i == k then t else s[i - 1]
  {
  }

  /** Insertion keeps the order, and puts t behind exactly the threads of at least its priority. */
  lemma InsertKeepsOrder(prio: Priorities, s: seq<nat>, t: nat)
    requires Ordered(prio, s)
    ensures Ordered(prio, Insert(prio, s, t))
    ensures forall i :: 0 <= i < |s| ==>
              (i < Position(prio, s, t) <==> PriorityOf(prio, s[i]) >= PriorityOf(prio, t))
  {
    hide Position, PriorityOf, InsertAt;
    var k := Position(prio, s, t);
    var r := Insert(prio, s, t);
    InsertedLength(s, k, t);
    forall i, j | 0 <= i < j < |r|
      ensures PriorityOf(prio, r[i]) >= PriorityOf(prio, r[j])
    {
      InsertAtIndex(s, k, t, i);
      InsertAtIndex(s, k, t, j);
    }
  }

  lemma InsertedLength(s: seq<nat>, k: nat, t: nat)
    requires k <= |s|
    ensures |InsertAt(s, k, t)| == |s| + 1
  {
  }

  lemma InsertAtFacts(s: seq<nat>, k: nat, t: nat)
    requires k <= |s| && Distinct(s) && t !in s
    ensures Distinct(InsertAt(s, k, t)) && forall x :: x in InsertAt(s, k, t) <==> x in s || x == t
  {
    var r := InsertAt(s, k, t);
    assert s == s[..k] + s[k..];
    assert forall x :: x in s <==> x in s[..k] || x in s[k..];
    forall i, j | 0 <= i < j < |r|
      ensures r[i] != r[j]
    {
      InsertAtIndex(s, k, t, i);
      InsertAtIndex(s, k, t, j);
    }
  }

  lemma WithoutKeepsOrder(prio: Priorities, s: seq<nat>, k: nat)
    requires Ordered(prio, s) && k < |s|
    ensures Ordered(prio, Without(s, k))
  {
    var r := Without(s, k);
    forall i, j | 0 <= i < j < |r|
      ensures PriorityOf(prio, r[i]) >= PriorityOf(prio, r[j])
    {
      assert r[i] == if i < k then s[i] else s[i + 1];
      assert r[j] == if j < k then s[j] else s[j + 1];
    }
  }

  // ------------------------------------------------------------------ queues without a thread

  function Drop(q: seq<nat>, t: nat): seq<nat> {
    if q == [] then [] else if q[0] == t then q[1..] else [q[0]] + Drop(q[1..], t)
  }

  lemma TailDistinct(q: seq<nat>)
    requires Distinct(q) && q != []
    ensures Distinct(q[1..]) && q[0] !in q[1..]
  {
    var rest := q[1..];
    forall i, j | 0 <= i < j < |rest|
      ensures rest[i] != rest[j]
    {
      assert rest[i] == q[i + 1] && rest[j] == q[j + 1];
    }
  }

  lemma {:induction false} DropIsWithout(q: seq<nat>, k: nat)
    requires k < |q| && Distinct(q)
    ensures Drop(q, q[k]) == Without(q, k)
  {
    hide Distinct;
    TailDistinct(q);
    if k > 0 {
      var rest := q[1..];
      assert q[k] == rest[k - 1];
      DropIsWithout(rest, k - 1);
      assert q[..k] == [q[0]] + rest[..k - 1] && q[k + 1..] == rest[k..];
      assert Without(q, k) == [q[0]] + Without(rest, k - 1);
    } else {
      assert Without(q, 0) == q[1..];
    }
  }

  lemma WithoutFacts(q: seq<nat>, k: nat)
    requires Distinct(q) && k < |q|
    ensures Distinct(Without(q, k))
    ensures forall x :: x in Without(q, k) <==> x in q && x != q[k]
  {
    var r := Without(q, k);
    forall i, j | 0 <= i < j < |r|
      ensures r[i] != r[j]
    {
      assert r[i] == if i < k then q[i] else q[i + 1];
      assert r[j] == if j < k then q[j] else q[j + 1];
    }
    assert q == q[..k] + [q[k]] + q[k + 1..];
    assert q[k] !in q[..k] && q[k] !in q[k + 1..];
  }

  // ------------------------------------------------------------------ relinking

  function SetNext(links: map<nat, Link>, t: nat, next: nat): map<nat, Link>
    requires t != 0 ==> t in links
  {
    if t == 0 then links else links[t := Link(links[t].prev, next)]
  }

  function SetPrev(links: map<nat, Link>, t: nat, prev: nat): map<nat, Link>
    requires t != 0 ==> t in links
  {
    if t == 0 then links else links[t := Link(prev, links[t].next)]
  }

  /** The writes that link t in between before and after. */
  function InsertLinks(links: map<nat, Link>, t: nat, before: nat, after: nat): map<nat, Link>
    requires (before != 0 ==> before in links) && (after != 0 ==> after in links)
  {
    SetPrev(SetNext(links, before, t), after, t)[t := Link(before, after)]
  }

  /** The writes that take a thread with the given neighbours out. */
  function RemoveLinks(links: map<nat, Link>, before: nat, after: nat): map<nat, Link>
    requires (before != 0 ==> before in links) && (after != 0 ==> after in links)
  {
    SetPrev(SetNext(links, before, after), after, before)
  }

  /** The thread before position k, and the one at it. */
  function Before(s: seq<nat>, k: nat): nat
    requires k <= |s|
  {
    if k == 0 then 0 else s[k - 1]
  }

  function After(s: seq<nat>, k: nat): nat
    requires k <= |s|
  {
    if k == |s| then 0 else s[k]
  }

  lemma EndsIn(links: map<nat, Link>, q: Queue, s: seq<nat>, k: nat)
    requires Represents(links, q, s) && k <= |s|
    ensures Before(s, k) != 0 ==> Before(s, k) in links
    ensures After(s, k) != 0 ==> After(s, k) in links
    ensures Before(s, k) == 0 <==> k == 0
    ensures After(s, k) == 0 <==> k == |s|
  {
    if k > 0 { assert Holds(links, s, k - 1); }
    if k < |s| { assert Holds(links, s, k); }
  }

  lemma InsertHolds(links: map<nat, Link>, q: Queue, s: seq<nat>, k: nat, t: nat, i: nat)
    requires Represents(links, q, s) && k <= |s| && t != 0 && t !in s && i <= |s|
    requires (Before(s, k) != 0 ==> Before(s, k) in links) && (After(s, k) != 0 ==> After(s, k) in links)
    ensures Holds(InsertLinks(links, t, Before(s, k), After(s, k)), InsertAt(s, k, t), i)
  {
    var r := InsertAt(s, k, t);
    if i != k {
      var j := if i < k then i else i - 1;
      assert Holds(links, s, j) && r[i] == s[j];
      assert i > 0 ==> r[i - 1] == if i == k + 1 then t else if i < k then s[i - 1] else s[i - 2];
      assert i < |s| ==> r[i + 1] == if i == k - 1 then t else if i < k then s[i + 1] else s[i];
    }
  }

  /** Linking t in at position k inserts it there. */
  lemma InsertRepresents(links: map<nat, Link>, q: Queue, s: seq<nat>, k: nat, t: nat)
    requires Represents(links, q, s) && k <= |s| && t != 0 && t !in s
    requires (Before(s, k) != 0 ==> Before(s, k) in links) && (After(s, k) != 0 ==> After(s, k) in links)
    ensures Represents(InsertLinks(links, t, Before(s, k), After(s, k)),
                       Queue(if k == 0 then t else q.head, if k == |s| then t else q.end), InsertAt(s, k, t))
  {
    var r, links' := InsertAt(s, k, t), InsertLinks(links, t, Before(s, k), After(s, k));
    forall i | 0 <= i < |r|
      ensures Holds(links', r, i)
    {
      InsertHolds(links, q, s, k, t, i);
    }
    hide Holds, InsertLinks;
    forall i, j | 0 <= i < j < |r|
      ensures r[i] != r[j]
    {
      assert r[i] == if i < k then s[i] else if i == k then t else s[i - 1];
      assert r[j] == if j < k then s[j] else if j == k then t else s[j - 1];
    }
  }

  lemma RemoveHolds(links: map<nat, Link>, q: Queue, s: seq<nat>, k: nat, i: nat)
    requires Represents(links, q, s) && k < |s| && i < |s| - 1
    requires (Before(s, k) != 0 ==> Before(s, k) in links) && (After(s, k + 1) != 0 ==> After(s, k + 1) in links)
    ensures Holds(RemoveLinks(links, Before(s, k), After(s, k + 1)), Without(s, k), i)
  {
    var r := Without(s, k);
    var j := if i < k then i else i + 1;
    assert Holds(links, s, j) && r[i] == s[j];
    assert i > 0 ==> r[i - 1] == if i <= k then s[i - 1] else s[i];
    assert i + 1 < |r| ==> r[i + 1] == if i + 1 < k then s[i + 1] else s[i + 2];
  }

  /** Linking the neighbours of position k to each other removes it. */
  lemma RemoveRepresents(links: map<nat, Link>, q: Queue, s: seq<nat>, k: nat)
    requires Represents(links, q, s) && k < |s|
    requires (Before(s, k) != 0 ==> Before(s, k) in links) && (After(s, k + 1) != 0 ==> After(s, k + 1) in links)
    ensures Represents(RemoveLinks(links, Before(s, k), After(s, k + 1)),
                       Queue(if k == 0 then After(s, k + 1) else q.head,
                             if k + 1 == |s| then Before(s, k) else q.end), Without(s, k))
  {
    var r, links' := Without(s, k), RemoveLinks(links, Before(s, k), After(s, k + 1));
    forall i | 0 <= i < |r|
      ensures Holds(links', r, i)
    {
      RemoveHolds(links, q, s, k, i);
    }
    hide Holds, RemoveLinks;
    forall i, j | 0 <= i < j < |r|
      ensures r[i] != r[j]
    {
      assert r[i] == if i < k then s[i] else s[i + 1];
      assert r[j] == if j < k then s[j] else s[j + 1];
    }
  }

  class Threads {
    var links: map<nat, Link>
    var prio: Priorities

    constructor (links: map<nat, Link>, prio: Priorities)
      ensures this.links == links && this.prio == prio
    {
      this.links, this.prio := links, prio;
    }

    /** Walks back from the end of the queue past every thread of lower priority. */
    method FindPlace(t: nat, queue: Queue, ghost s: seq<nat>) returns (before: nat, after: nat)
      requires Represents(links, queue, s)
      ensures var k := Position(prio, s, t); before == Before(s, k) && after == After(s, k)
    {
      before, after := queue.end, 0;
      ghost var k := |s|;
      assert s[..k] == s;
      while before != 0 && PriorityOf(prio, t) > PriorityOf(prio, before)
        invariant 0 <= k <= |s| && before == Before(s, k) && after == After(s, k)
        invariant Position(prio, s[..k], t) == Position(prio, s, t)
        decreases k
      {
        assert Holds(links, s, k - 1);
        after := before;
        before := links[after].prev;
        k := k - 1;
        assert s[..k + 1][..k] == s[..k];
      }
      EndsIn(links, queue, s, k);
    }

    /** tcbEPAppend */
    method Append(t: nat, queue: Queue, ghost s: seq<nat>) returns (q: Queue)
      requires Represents(links, queue, s) && t != 0 && t in links && t !in s
      modifies `links
      ensures Represents(links, q, Insert(prio, s, t)) && links.Keys == old(links.Keys)
      ensures forall x :: x in links && x != t && x !in s ==> links[x] == old(links)[x]
    {
      hide Represents, Position;
      var before, after := FindPlace(t, queue, s);
      ghost var k := Position(prio, s, t);
      EndsIn(links, queue, s, k);
      InsertRepresents(links, queue, s, k, t);
      q := Queue(if before == 0 then t else queue.head, if after == 0 then t else queue.end);
      if before != 0 {
        links := links[before := Link(links[before].prev, t)];
      }
      if after != 0 {
        links := links[after := Link(t, links[after].next)];
      }
      links := links[t := Link(before, after)];
    }

    /** tcbEPDequeue */
    method Dequeue(t: nat, queue: Queue, ghost s: seq<nat>, ghost k: nat) returns (q: Queue)
      requires Represents(links, queue, s) && k < |s| && s[k] == t
      modifies `links
      ensures Represents(links, q, Without(s, k)) && links.Keys == old(links.Keys)
      ensures forall x :: x in links && x !in s ==> links[x] == old(links)[x]
    {
      ThreadAt(links, queue, s, k);
      hide Represents;
      EndsIn(links, queue, s, k);
      EndsIn(links, queue, s, k + 1);
      RemoveRepresents(links, queue, s, k);
      var before, after := links[t].prev, links[t].next;
      q := Queue(if before == 0 then after else queue.head, if after == 0 then before else queue.end);
      if before != 0 {
        links := links[before := Link(links[before].prev, after)];
      }
      if after != 0 {
        links := links[after := Link(before, links[after].next)];
      }
    }

    /** setPriority of a waiting thread: with its new priority the thread is taken out of the queue and put in again. */
    method Reorder(t: nat, p: nat, queue: Queue, ghost s: seq<nat>, ghost k: nat) returns (q: Queue)
      requires Represents(links, queue, s) && Ordered(prio, s) && k < |s| && s[k] == t
      modifies this
      ensures prio == old(prio)[t := p] && links.Keys == old(links.Keys)
      ensures var r := Insert(prio, Without(s, k), t); Represents(links, q, r) && Ordered(prio, r)
      ensures forall x :: x in links && x !in s ==> links[x] == old(links)[x]
    {
      ThreadAt(links, queue, s, k);
      ReorderKeepsOrder(prio, s, k, p);
      WithoutFacts(s, k);
      hide Represents, Ordered, Insert, Without;
      prio := prio[t := p];
      q := Dequeue(t, queue, s, k);
      q := Append(t, q, Without(s, k));
    }
  }

  /** The priority of a thread that is not in the queue does not matter. */
  lemma OtherPriority(prio: Priorities, s: seq<nat>, t: nat, p: nat)
    requires Ordered(prio, s) && t !in s
    ensures Ordered(prio[t := p], s)
  {
  }

  /** Whatever priority a thread of the queue gets, taking it out and putting it in again restores the order. */
  lemma ReorderKeepsOrder(prio: Priorities, s: seq<nat>, k: nat, p: nat)
    requires Distinct(s) && Ordered(prio, s) && k < |s|
    ensures var now := prio[s[k] := p]; Ordered(now, Insert(now, Without(s, k), s[k]))
  {
    hide Ordered, Distinct, Insert, Without;
    WithoutKeepsOrder(prio, s, k);
    WithoutFacts(s, k);
    OtherPriority(prio, Without(s, k), s[k], p);
    InsertKeepsOrder(prio[s[k] := p], Without(s, k), s[k]);
  }

  lemma ThreadAt(links: map<nat, Link>, q: Queue, s: seq<nat>, k: nat)
    requires Represents(links, q, s) && k < |s|
    ensures Distinct(s) && s[k] != 0 && s[k] in links && links[s[k]] == Link(Before(s, k), After(s, k + 1))
  {
    assert Holds(links, s, k);
  }
}
