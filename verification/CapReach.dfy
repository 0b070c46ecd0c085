/**
 * Which caps a deletion can reach: those it is asked to delete, and with each of them the caps in the slots that
 * it stands for.
 */
module CapReach {
  import opened Caps
  import opened MdbList
  import opened MdbSteps
  import opened MdbOps
  import opened CSpace
  import opened CapObjects

  /** An entry without its place in the list. */
  function Core(e: Entry): Entry {
    e.(head := false, firstBadged := false)
  }

  function Cores(es: seq<Entry>): set<Entry> {
    set i | 0 <= i < |es| :: Core(es[i])
  }

  /** With each of its caps, the set has those in the slots that the cap stands for. */
  predicate Closed(es: seq<Entry>, reach: set<nat>) {
    forall i, j | 0 <= i < |es| && 0 <= j < |es| && es[i].id in reach && Names(es[i].cap, es[j].slot) ::
      es[j].id in reach
  }

  /** Everything else. */
  function Outside(es: seq<Entry>, reach: set<nat>): set<Entry> {
    set x | x in Cores(es) && x.id !in reach
  }

  predicate OccupantIn(es: seq<Entry>, s: nat, reach: set<nat>) {
    forall i | 0 <= i < |es| && es[i].slot == s :: es[i].id in reach
  }

  predicate Was(a: Mdb, y: Entry) {
    exists i :: 0 <= i < |a.es| && a.es[i].id == y.id && a.es[i].slot == y.slot && a.es[i].cap == y.cap
  }

  /** A cap in any slot but e was there before, unless it is a zombie. */
  predicate InPlace(a: Mdb, b: Mdb, e: nat) {
    forall j | 0 <= j < |b.es| && b.es[j].slot != e && !b.es[j].cap.Zombie? :: Was(a, b.es[j])
  }

  /** No cap of the set stands for the slot x. */
  predicate Spares(es: seq<Entry>, reach: set<nat>, x: nat) {
    forall i | 0 <= i < |es| && es[i].id in reach :: !Names(es[i].cap, x)
  }

  /** What was spared is still spared. */
  ghost predicate Sparing(a: Mdb, b: Mdb, reach: set<nat>) {
    forall x: nat | Spares(a.es, reach, x) :: Spares(b.es, reach, x)
  }

  /** From a to b, only caps of the set were removed, moved or turned into zombies. */
  ghost predicate Reaches(a: Mdb, b: Mdb, reach: set<nat>, e: nat) {
    && Closed(b.es, reach) && Outside(b.es, reach) == Outside(a.es, reach)
    && Sparing(a, b, reach) && InPlace(a, b, e)
  }

  lemma ReachesNothing(m: Mdb, reach: set<nat>, e: nat)
    requires Closed(m.es, reach)
    ensures Reaches(m, m, reach, e)
  {
    hide Closed;
    forall j | 0 <= j < |m.es| ensures Was(m, m.es[j]) { assert m.es[j].id == m.es[j].id; }
  }

  lemma ReachesTransitive(a: Mdb, b: Mdb, c: Mdb, reach: set<nat>, e: nat)
    requires Reaches(a, b, reach, e) && Reaches(b, c, reach, e)
    ensures Reaches(a, c, reach, e)
  {
    hide Closed, Outside, Spares;
    forall j | 0 <= j < |c.es| && c.es[j].slot != e && !c.es[j].cap.Zombie? ensures Was(a, c.es[j]) {
      assert Was(b, c.es[j]);
      var i :| 0 <= i < |b.es| && b.es[i].id == c.es[j].id && b.es[i].slot == c.es[j].slot
        && b.es[i].cap == c.es[j].cap;
      assert Was(a, b.es[i]);
    }
  }

  /** The slot e, too, holds nothing that was not there before; or it is of no interest. */
  lemma ReachesElsewhere(a: Mdb, b: Mdb, reach: set<nat>, e: nat, e': nat)
    requires Reaches(a, b, reach, e)
    requires forall j | 0 <= j < |b.es| && b.es[j].slot == e && e != e' :: b.es[j].cap.Zombie?
    ensures Reaches(a, b, reach, e')
  {
    hide Closed, Outside, Was, Sparing;
  }

  lemma ReachesFacts(a: Mdb, b: Mdb, reach: set<nat>, e: nat)
    requires Reaches(a, b, reach, e)
    ensures Closed(b.es, reach) && Outside(b.es, reach) == Outside(a.es, reach) && Sparing(a, b, reach)
  {
  }

  lemma OutsideWas(a: seq<Entry>, b: seq<Entry>, reach: set<nat>, i: nat)
    requires Outside(a, reach) == Outside(b, reach) && i < |b|
    ensures b[i].id in reach || exists j :: 0 <= j < |a| && Core(a[j]) == Core(b[i])
  {
    if b[i].id !in reach {
      assert Core(b[i]) in Outside(b, reach);
      assert Core(b[i]) in Cores(a);
    }
  }

  /** A slot whose cap may be reached holds no other cap afterwards. */
  lemma OccupantStays(a: seq<Entry>, b: seq<Entry>, reach: set<nat>, s: nat)
    requires Outside(a, reach) == Outside(b, reach) && OccupantIn(a, s, reach)
    ensures OccupantIn(b, s, reach)
  {
    forall i | 0 <= i < |b| && b[i].slot == s ensures b[i].id in reach {
      OutsideWas(a, b, reach, i);
      if j :| 0 <= j < |a| && Core(a[j]) == Core(b[i]) {
        assert a[j].id == b[i].id && a[j].slot == s;
      }
    }
  }

  lemma OccupantInside(es: seq<Entry>, k: nat, e: nat, reach: set<nat>)
    requires Closed(es, reach) && k < |es| && es[k].id in reach && Names(es[k].cap, e)
    ensures OccupantIn(es, e, reach)
  {
    hide Names;
  }

  /** A cap of the set stands for no spared slot. */
  lemma SparedIsNotNamed(es: seq<Entry>, k: nat, reach: set<nat>, x: nat)
    requires k < |es| && es[k].id in reach && Spares(es, reach, x)
    ensures !Names(es[k].cap, x)
  {
    hide Names;
  }

  // ------------------------------------------------------------------ the steps of a deletion

  lemma CoveredSparing(a: Mdb, b: Mdb, reach: set<nat>)
    requires |a.es| == |b.es| && forall i | 0 <= i < |a.es| ::
             a.es[i].id == b.es[i].id && Covers(a.es[i].cap, b.es[i].cap)
    ensures Sparing(a, b, reach)
  {
    hide Names, Covers;
    forall x: nat, i | Spares(a.es, reach, x) && 0 <= i < |b.es| && b.es[i].id in reach ensures !Names(b.es[i].cap, x) {
      SparedIsNotNamed(a.es, i, reach, x);
      if Names(b.es[i].cap, x) { CoversNames(a.es[i].cap, b.es[i].cap, x); }
    }
  }

  lemma SameOutside(a: seq<Entry>, b: seq<Entry>, reach: set<nat>)
    requires |a| == |b| && forall i | 0 <= i < |a| ::
             a[i].id == b[i].id && (a[i].id !in reach ==> Core(a[i]) == Core(b[i]))
    ensures Outside(a, reach) == Outside(b, reach)
  {
    forall x ensures x in Outside(a, reach) <==> x in Outside(b, reach) {
      if x in Outside(a, reach) {
        var i :| 0 <= i < |a| && x == Core(a[i]);
        assert x == Core(b[i]);
      }
      if x in Outside(b, reach) {
        var i :| 0 <= i < |b| && x == Core(b[i]);
        assert x == Core(a[i]);
      }
    }
  }

  lemma ZombieReaches(m: Mdb, k: nat, z: Cap, reach: set<nat>, e: nat)
    requires Closed(m.es, reach) && k < |m.es| && m.es[k].id in reach && z.Zombie? && Covers(m.es[k].cap, z)
    ensures Reaches(m, m.(es := WithCap(m.es, k, z)), reach, e)
  {
    var r := WithCap(m.es, k, z);
    CoveredSparing(m, m.(es := r), reach);
    hide Sparing;
    forall i, j | 0 <= i < |r| && 0 <= j < |r| && r[i].id in reach && Names(r[i].cap, r[j].slot)
      ensures r[j].id in reach
    {
      hide Names;
      if i == k { CoversNames(m.es[k].cap, z, r[j].slot); }
      assert Names(m.es[i].cap, m.es[j].slot);
    }
    hide Closed, Names;
    SameOutside(r, m.es, reach);
    forall j | 0 <= j < |r| && !r[j].cap.Zombie? ensures Was(m, r[j]) { assert m.es[j] == r[j]; }
  }

  lemma SwapMoved(e: Entry, cap1: Cap, s1: nat, cap2: Cap, s2: nat)
    requires (e.slot == s1 ==> e.cap == cap1) && (e.slot == s2 ==> e.cap == cap2)
    ensures var r := SwapEntry(e, cap1, s1, cap2, s2);
            && r == e.(slot := r.slot) && (e.slot != s1 && e.slot != s2 ==> r == e) && (e.slot == s1 ==> r.slot == s2)
  {
  }

  /** A swap that changes no cap. */
  lemma SwapMoves(es: seq<Entry>, cap1: Cap, s1: nat, cap2: Cap, s2: nat)
    requires forall i | 0 <= i < |es| && es[i].slot == s1 :: es[i].cap == cap1
    requires forall i | 0 <= i < |es| && es[i].slot == s2 :: es[i].cap == cap2
    ensures var r := SwapEntries(es, cap1, s1, cap2, s2);
            && |r| == |es| && (forall i | 0 <= i < |r| :: r[i] == es[i].(slot := r[i].slot))
            && (forall i | 0 <= i < |r| && es[i].slot != s1 && es[i].slot != s2 :: r[i] == es[i])
            && (forall i | 0 <= i < |r| && es[i].slot == s1 :: r[i].slot == s2)
  {
    hide SwapEntries, SwapEntry;
    var r := SwapEntries(es, cap1, s1, cap2, s2);
    forall i | 0 <= i < |r|
      ensures r[i] == es[i].(slot := r[i].slot)
      ensures es[i].slot != s1 && es[i].slot != s2 ==> r[i] == es[i]
      ensures es[i].slot == s1 ==> r[i].slot == s2
    {
      SwapMoved(es[i], cap1, s1, cap2, s2);
    }
  }

  /** Caps of a closed set trade places: the set is still closed. */
  lemma SwapCloses(es: seq<Entry>, r: seq<Entry>, s1: nat, s2: nat, reach: set<nat>)
    requires Closed(es, reach) && OccupantIn(es, s1, reach) && OccupantIn(es, s2, reach) && |r| == |es|
    requires forall i | 0 <= i < |r| :: r[i] == es[i].(slot := r[i].slot)
    requires forall i | 0 <= i < |r| && es[i].slot != s1 && es[i].slot != s2 :: r[i] == es[i]
    ensures Closed(r, reach)
  {
    hide Names;
    forall i, j | 0 <= i < |r| && 0 <= j < |r| && r[i].id in reach && Names(r[i].cap, r[j].slot)
      ensures r[j].id in reach
    {
      if es[j].slot != s1 && es[j].slot != s2 { assert Names(es[i].cap, es[j].slot); }
    }
  }

  lemma SwapReaches(m: Mdb, cap1: Cap, s1: nat, cap2: Cap, s2: nat, reach: set<nat>)
    requires Closed(m.es, reach) && OccupantIn(m.es, s1, reach) && OccupantIn(m.es, s2, reach) && cap2.Zombie?
    requires forall i | 0 <= i < |m.es| && m.es[i].slot == s1 :: m.es[i].cap == cap1
    requires forall i | 0 <= i < |m.es| && m.es[i].slot == s2 :: m.es[i].cap == cap2
    ensures Reaches(m, m.(es := SwapEntries(m.es, cap1, s1, cap2, s2)), reach, s2)
  {
    hide SwapEntries, Sparing, Closed;
    var r := SwapEntries(m.es, cap1, s1, cap2, s2);
    SwapMoves(m.es, cap1, s1, cap2, s2);
    SwapCloses(m.es, r, s1, s2, reach);
    CoveredSparing(m, m.(es := r), reach);
    SameOutside(r, m.es, reach);
    forall j | 0 <= j < |r| && r[j].slot != s2 && !r[j].cap.Zombie? ensures Was(m, r[j]) {
      assert m.es[j] == r[j];
    }
  }

  lemma RemovedAt(m: Mdb, k: nat, j: nat)
    requires k < |m.es| && j < |m.es| - 1
    ensures |Removed(m, k).es| == |m.es| - 1 && Core(Removed(m, k).es[j]) == Core(m.es[Past(k, j)])
  {
  }

  lemma RemovedLength(m: Mdb, k: nat)
    requires k < |m.es|
    ensures |Removed(m, k).es| == |m.es| - 1
  {
  }

  lemma RemovedCores(m: Mdb, k: nat)
    requires Ids(m) && k < |m.es|
    ensures Cores(Removed(m, k).es) == Cores(m.es) - {Core(m.es[k])}
  {
    hide Removed;
    RemovedLength(m, k);
    var es, r := m.es, Removed(m, k).es;
    forall x | x in Cores(r) ensures x in Cores(es) && x != Core(es[k]) {
      var i: nat :| i < |r| && x == Core(r[i]);
      RemovedAt(m, k, i);
      assert es[Past(k, i)].id != es[k].id;
    }
    forall x | x in Cores(es) && x != Core(es[k]) ensures x in Cores(r) {
      var i: nat :| i < |es| && x == Core(es[i]);
      var j := if i < k then i else i - 1;
      RemovedAt(m, k, j);
      assert x == Core(r[j]);
    }
  }

  lemma RemovalReaches(m: Mdb, k: nat, reach: set<nat>, e: nat)
    requires Ids(m) && Closed(m.es, reach) && k < |m.es| && m.es[k].id in reach
    ensures Reaches(m, Removed(m, k), reach, e)
  {
    RemovedCores(m, k);
    assert Outside(Removed(m, k).es, reach) == Outside(m.es, reach);
    hide Cores, Ids;
    var es, r := m.es, Removed(m, k).es;
    RemovedLength(m, k);
    forall j: nat | j < |r|
      ensures Past(k, j) < |es| && es[Past(k, j)].id == r[j].id && es[Past(k, j)].slot == r[j].slot
              && es[Past(k, j)].cap == r[j].cap
    {
      RemovedAt(m, k, j);
    }
    hide Removed, Outside, Names;
    forall x: nat, j: nat | Spares(es, reach, x) && j < |r| && r[j].id in reach ensures !Names(r[j].cap, x) {
      SparedIsNotNamed(es, Past(k, j), reach, x);
    }
    assert Sparing(m, Removed(m, k), reach);
    hide Sparing;
    forall i: nat, j: nat | i < |r| && j < |r| && r[i].id in reach && Names(r[i].cap, r[j].slot)
      ensures r[j].id in reach
    {
      assert Names(es[Past(k, i)].cap, es[Past(k, j)].slot);
    }
    hide Closed;
    forall j: nat | j < |r| ensures Was(m, r[j]) { assert es[Past(k, j)].id == r[j].id; }
  }

  // ------------------------------------------------------------------ what a revocation can reach

  /** The set has every cap derived from the one numbered id, and what lies in their objects. */
  predicate Dooms(es: seq<Entry>, id: nat, reach: set<nat>) {
    && Closed(es, reach)
    && forall i | 0 <= i < |es| && id in es[i].ancestors :: es[i].id in reach
  }

  function Numbers(es: seq<Entry>): set<nat> {
    set i | 0 <= i < |es| :: es[i].id
  }

  /** The least such set. */
  ghost function Doomed(es: seq<Entry>, id: nat): set<nat> {
    set x | x in Numbers(es) && forall reach | Dooms(es, id, reach) :: x in reach
  }

  lemma DoomedDooms(es: seq<Entry>, id: nat)
    ensures Dooms(es, id, Doomed(es, id))
  {
    var d := Doomed(es, id);
    forall i, j | 0 <= i < |es| && 0 <= j < |es| && es[i].id in d && Names(es[i].cap, es[j].slot)
      ensures es[j].id in d
    {
      hide Names;
      assert es[j].id in Numbers(es);
      forall reach | Dooms(es, id, reach) ensures es[j].id in reach { assert es[i].id in reach; }
    }
    forall i | 0 <= i < |es| && id in es[i].ancestors ensures es[i].id in d { assert es[i].id in Numbers(es); }
  }

  function DerivedIds(es: seq<Entry>, id: nat): set<nat> {
    set i | 0 <= i < |es| && id in es[i].ancestors :: es[i].id
  }

  /** A revocation reaches exactly the derived caps if and only if their slots hold only derived caps. */
  lemma DoomedIsDerived(es: seq<Entry>, id: nat)
    ensures Doomed(es, id) == DerivedIds(es, id) <==> Closed(es, DerivedIds(es, id))
  {
    var d := DerivedIds(es, id);
    DoomedDooms(es, id);
    if Closed(es, d) {
      assert Dooms(es, id, d);
      forall x | x in d ensures x in Doomed(es, id) {
        var i :| 0 <= i < |es| && id in es[i].ancestors && x == es[i].id;
        assert x in Numbers(es);
      }
    }
  }
}
