/**
 * What the list operations do to the derivation lists, and that each keeps the invariant.
 */
module MdbSteps {
  import opened Caps
  import opened MdbList

  // ------------------------------------------------------------------------ insertion

  /** Link `e` directly after position k, as cteInsert and insertNewCap do. */
  function InsertAfter(es: seq<Entry>, k: nat, e: Entry): (r: seq<Entry>)
    requires k < |es|
    ensures |r| == |es| + 1
    ensures forall i | 0 <= i < |r| :: r[i] == if i <= k then es[i] else if i == k + 1 then e else es[i - 1]
  {
    es[..k + 1] + [e] + es[k + 1..]
  }

  /** Where position i of the new list was before the insertion after k. */
  function Before(k: nat, i: nat): nat
    requires i != k + 1
  {
    if i <= k then i else i - 1
  }

  /** A fresh entry derived from the cap at k. */
  predicate Child(m: Mdb, k: nat, e: Entry)
    requires k < |m.es|
  {
    && EntryOk(e) && !e.head && e.id == m.nextId && e.ancestors == m.es[k].ancestors + {m.es[k].id}
    && DerivedKind(m.es[k].cap, e.cap)
  }

  /** The object is the source's, or nobody's yet. */
  predicate ChildObject(es: seq<Entry>, k: nat, e: Entry)
    requires k < |es|
  {
    if ObjectOf(es[k].cap) == NoObject then
      && (ObjectOf(e.cap) != NoObject ==> forall j | 0 <= j < |es| :: ObjectOf(es[j].cap) != ObjectOf(e.cap))
      && !e.cap.SchedControl?
    else
      ObjectOf(e.cap) == ObjectOf(es[k].cap) && (e.revocable ==> IsBadged(e.cap))
  }

  /** The lineage is the source's, or begins here. */
  predicate ChildLineage(m: Mdb, k: nat, e: Entry)
    requires k < |m.es|
  {
    if m.es[k].lineage.MintedBy? then
      e.lineage == m.es[k].lineage && SameBadge(m.es[k].cap, e.cap) && !e.firstBadged
    else
      e.lineage.MintedBy? ==> e.lineage == MintedBy(m.nextId) && e.firstBadged
  }

  /** Untyped memory is shared with the source and its ancestors only, other memory within one object. */
  predicate ChildRegion(es: seq<Entry>, k: nat, e: Entry)
    requires k < |es|
  {
    forall j | 0 <= j < |es| && Overlap(es[j].cap, e.cap) ::
      if e.cap.Untyped? || es[j].cap.Untyped? then j == k || Derived(es, j, k)
      else ObjectOf(es[j].cap) == ObjectOf(e.cap) != NoObject
  }

  /** What an insertion after k must satisfy; each kind of insertion below meets it. */
  predicate Insertable(m: Mdb, k: nat, e: Entry)
    requires k < |m.es|
  {
    && Child(m, k, e) && ChildObject(m.es, k, e) && ChildLineage(m, k, e) && ChildRegion(m.es, k, e)
    && !e.cap.IrqControl?
    && (e.cap.IrqHandler? ==> m.es[k].cap.IrqControl? || m.es[k].cap.IrqHandler?)
  }

  function Inserted(m: Mdb, k: nat, e: Entry): Mdb
    requires k < |m.es|
  {
    Mdb(InsertAfter(m.es, k, e), m.nextId + 1, if e.cap.IrqHandler? then m.irqs + {e.cap.irq} else m.irqs)
  }

  lemma {:induction false} InsertKeepsIds(m: Mdb, k: nat, e: Entry)
    requires Ids(m) && k < |m.es| && e.id == m.nextId && e.ancestors == m.es[k].ancestors + {m.es[k].id}
    ensures Ids(Inserted(m, k, e))
  {
  }

  lemma {:induction false} InsertKeepsEntries(es: seq<Entry>, k: nat, e: Entry)
    requires Entries(es) && k < |es| && EntryOk(e)
    ensures Entries(InsertAfter(es, k, e))
  {
  }

  /** Derivation in the new list, read in the old one. */
  lemma {:induction false} InsertedDerivation(m: Mdb, k: nat, e: Entry, i: nat, j: nat)
    requires Ids(m) && k < |m.es| && Child(m, k, e) && i <= |m.es| && j <= |m.es|
    ensures var r := InsertAfter(m.es, k, e);
            Derived(r, i, j) <==>
              i != k + 1 &&
              (if j == k + 1 then i == k || Derived(m.es, Before(k, i), k)
               else Derived(m.es, Before(k, i), Before(k, j)))
  {
  }

  lemma {:induction false} InsertKeepsRuns(m: Mdb, k: nat, e: Entry)
    requires Ids(m) && Runs(m.es) && k < |m.es| && Child(m, k, e)
    ensures Runs(InsertAfter(m.es, k, e))
  {
    var r := InsertAfter(m.es, k, e);
    hide Ids;
    forall i: nat, j: nat | i < |r| && j < |r| && Derived(r, i, j)
      ensures i < j && !r[j].head && (i == j - 1 || Derived(r, i, j - 1))
    {
      InsertedDerivation(m, k, e, i, j);
      if i < j - 1 { InsertedDerivation(m, k, e, i, j - 1); }
    }
  }

  lemma {:induction false} DerivedKindTransitive(a: Cap, b: Cap, c: Cap)
    requires DerivedKind(a, b) && DerivedKind(b, c) && WellFormed(b)
    ensures DerivedKind(a, c)
  {
  }

  lemma {:induction false} InsertedKind(m: Mdb, k: nat, e: Entry, i: nat, j: nat)
    requires Ids(m) && Entries(m.es) && Kinds(m.es) && k < |m.es| && Child(m, k, e) && ChildLineage(m, k, e)
    requires i <= |m.es| && j <= |m.es| && Derived(InsertAfter(m.es, k, e), i, j)
    ensures var r := InsertAfter(m.es, k, e);
            DerivedKind(r[i].cap, r[j].cap) && (IsBadged(r[i].cap) ==> r[i].lineage == r[j].lineage)
  {
    hide DerivedKind, WellFormed, ObjectOf;
    InsertedDerivation(m, k, e, i, j);
    if j != k + 1 {
      assert Derived(m.es, Before(k, i), Before(k, j));
    } else if i != k {
      assert Derived(m.es, Before(k, i), k) && EntryOk(m.es[Before(k, i)]);
      DerivedKindTransitive(m.es[Before(k, i)].cap, m.es[k].cap, e.cap);
    }
  }

  lemma {:induction false} InsertKeepsKinds(m: Mdb, k: nat, e: Entry)
    requires Ids(m) && Entries(m.es) && Kinds(m.es) && k < |m.es| && Child(m, k, e) && ChildLineage(m, k, e)
    ensures Kinds(InsertAfter(m.es, k, e))
  {
    var r := InsertAfter(m.es, k, e);
    forall i: nat, j: nat | i < |r| && j < |r| && Derived(r, i, j)
      ensures DerivedKind(r[i].cap, r[j].cap) && (IsBadged(r[i].cap) ==> r[i].lineage == r[j].lineage)
    {
      InsertedKind(m, k, e, i, j);
    }
  }

  lemma {:induction false} InsertedObject(es: seq<Entry>, k: nat, e: Entry, i: nat, j: nat)
    requires Objects(es) && k < |es| && ChildObject(es, k, e) && !e.head
    requires i < j <= |es| && SameObjectAt(InsertAfter(es, k, e), i, j) && !InsertAfter(es, k, e)[j].cap.SchedControl?
    ensures var r := InsertAfter(es, k, e); !r[j].head && SameObjectAt(r, j - 1, j)
  {
    if j == k + 1 {
      assert ObjectOf(es[i].cap) == ObjectOf(e.cap);
    } else {
      var i', j' := if i == k + 1 then k else Before(k, i), Before(k, j);
      assert i == k + 1 ==> ObjectOf(es[j'].cap) == ObjectOf(e.cap);
      if i' < j' {
        assert SameObjectAt(es, i', j');
        assert SameObjectAt(es, j' - 1, j');
      }
    }
  }

  lemma {:induction false} InsertKeepsObjects(es: seq<Entry>, k: nat, e: Entry)
    requires Objects(es) && k < |es| && ChildObject(es, k, e) && !e.head
    ensures Objects(InsertAfter(es, k, e))
  {
    var r := InsertAfter(es, k, e);
    forall i: nat, j: nat | i < j < |r| && SameObjectAt(r, i, j) && !r[j].cap.SchedControl?
      ensures !r[j].head && SameObjectAt(r, j - 1, j)
    {
      InsertedObject(es, k, e, i, j);
    }
  }

  lemma {:induction false} InsertKeepsOriginals(m: Mdb, k: nat, e: Entry)
    requires Ids(m) && Originals(m.es) && k < |m.es| && Child(m, k, e) && ChildObject(m.es, k, e)
    ensures Originals(InsertAfter(m.es, k, e))
  {
    var es, r := m.es, InsertAfter(m.es, k, e);
    forall i: nat, j: nat | i < |r| && j < |r| && i != j && SameObjectAt(r, i, j)
                            && r[i].revocable && !IsBadged(r[i].cap) && !r[i].cap.SchedControl?
      ensures Derived(r, i, j)
    {
      hide ObjectOf, IsBadged, Child;
      InsertedDerivation(m, k, e, i, j);
      if j == k + 1 {
        assert ObjectOf(es[Before(k, i)].cap) == ObjectOf(e.cap);
        assert i == k || SameObjectAt(es, Before(k, i), k);
      } else if i != k + 1 {
        assert SameObjectAt(es, Before(k, i), Before(k, j));
      }
    }
  }

  lemma {:induction false} InsertedSchedControl(m: Mdb, k: nat, e: Entry, i: nat, j: nat)
    requires Ids(m) && SchedControls(m.es) && k < |m.es| && Child(m, k, e)
    requires m.es[k].cap.SchedControl? ==> !e.revocable
    requires var r := InsertAfter(m.es, k, e);
             i < j < |r| && r[j].cap.SchedControl? && !r[j].head && r[i].revocable && ReachesPrev(r, i, j)
    ensures Derived(InsertAfter(m.es, k, e), i, j)
  {
    hide Ids;
    InsertedDerivation(m, k, e, i, j);
    InsertedDerivation(m, k, e, i, j - 1);
    if j > k + 1 {
      assert m.es[j - 1].cap.SchedControl?;
      assert ReachesPrev(m.es, Before(k, i), j - 1);
    } else if j <= k {
      assert ReachesPrev(m.es, i, j);
    }
  }

  lemma {:induction false} InsertKeepsSchedControls(m: Mdb, k: nat, e: Entry)
    requires Ids(m) && Entries(m.es) && SchedControls(m.es) && k < |m.es| && Child(m, k, e) && ChildObject(m.es, k, e)
    ensures SchedControls(InsertAfter(m.es, k, e))
  {
    var r := InsertAfter(m.es, k, e);
    assert e.cap.SchedControl? <==> m.es[k].cap.SchedControl?;
    forall j: nat | j < |r| && r[j].cap.SchedControl? && !r[j].head
      ensures j > 0 && r[j - 1].cap.SchedControl?
    {
      assert j > k + 1 ==> m.es[j - 2].cap.SchedControl?;
    }
    forall i: nat, j: nat | i < j < |r| && r[j].cap.SchedControl? && !r[j].head && r[i].revocable
                            && ReachesPrev(r, i, j)
      ensures Derived(r, i, j)
    {
      InsertedSchedControl(m, k, e, i, j);
    }
  }

  lemma {:induction false} LineagesAreOld(m: Mdb)
    requires Ids(m) && Entries(m.es)
    ensures forall i | 0 <= i < |m.es| :: m.es[i].lineage.MintedBy? ==> m.es[i].lineage.mint < m.nextId
  {
    forall i | 0 <= i < |m.es| ensures m.es[i].lineage.MintedBy? ==> m.es[i].lineage.mint < m.nextId {
      assert EntryOk(m.es[i]);
    }
  }

  lemma {:induction false} InsertedLineage(m: Mdb, k: nat, e: Entry, i: nat, j: nat)
    requires Lineages(m.es) && k < |m.es| && !e.head && ChildLineage(m, k, e)
    requires e.lineage.MintedBy? ==> SameBadge(e.cap, e.cap)
    requires forall x | 0 <= x < |m.es| :: m.es[x].lineage.MintedBy? ==> m.es[x].lineage.mint < m.nextId
    requires i <= |m.es| && j <= |m.es| && SameLineage(InsertAfter(m.es, k, e), i, j)
    ensures var r := InsertAfter(m.es, k, e); SameBadge(r[i].cap, r[j].cap)
    ensures var r := InsertAfter(m.es, k, e); i < j ==> !r[j].head && SameLineage(r, j - 1, j)
  {
    var es := m.es;
    if i != k + 1 && j != k + 1 {
      assert SameLineage(es, Before(k, i), Before(k, j));
      if i < j { assert SameLineage(es, Before(k, j) - 1, Before(k, j)); }
    } else if i != k + 1 {
      assert SameLineage(es, Before(k, i), k);
    } else if j != k + 1 {
      assert SameLineage(es, k, Before(k, j));
      if i < j { assert SameLineage(es, Before(k, j) - 1, Before(k, j)); }
    }
  }

  lemma {:induction false} InsertKeepsLineages(m: Mdb, k: nat, e: Entry)
    requires Ids(m) && Entries(m.es) && Lineages(m.es) && k < |m.es| && !e.head && EntryOk(e) && ChildLineage(m, k, e)
    ensures Lineages(InsertAfter(m.es, k, e))
  {
    var r := InsertAfter(m.es, k, e);
    LineagesAreOld(m);
    forall i: nat, j: nat | i < |r| && j < |r| && SameLineage(r, i, j)
      ensures SameBadge(r[i].cap, r[j].cap)
    {
      InsertedLineage(m, k, e, i, j);
    }
    forall i: nat, j: nat | i < j < |r| && SameLineage(r, i, j)
      ensures !r[j].head && SameLineage(r, j - 1, j)
    {
      InsertedLineage(m, k, e, i, j);
    }
  }

  /** Minted lineages belong to badged caps, and were minted before now. */
  predicate LineageOk(m: Mdb, e: Entry) {
    (e.lineage.MintedBy? <==> IsBadged(e.cap)) && (e.lineage.MintedBy? ==> e.lineage.mint < m.nextId)
  }

  lemma {:induction false} LineagesOk(m: Mdb, i: nat)
    requires Ids(m) && Entries(m.es) && i < |m.es|
    ensures LineageOk(m, m.es[i])
  {
    hide WellFormed, IsBadged;
    LineagesAreOld(m);
    assert EntryOk(m.es[i]);
  }

  lemma {:induction false} InsertedFirstBadged(m: Mdb, k: nat, e: Entry, j: nat)
    requires FirstBadged(m.es) && k < |m.es| && !e.head && ChildLineage(m, k, e) && j <= |m.es|
    requires (e.lineage.MintedBy? <==> IsBadged(e.cap)) && forall i | 0 <= i < |m.es| :: LineageOk(m, m.es[i])
    requires IsBadged(InsertAfter(m.es, k, e)[j].cap)
    ensures var r := InsertAfter(m.es, k, e);
            r[j].firstBadged <==> (j == 0 || r[j].head || !SameLineage(r, j - 1, j))
  {
    hide IsBadged, SameBadge;
    var es := m.es;
    if j == k + 1 {
      assert LineageOk(m, es[k]);
    } else if j == k + 2 {
      assert LineageOk(m, es[k]) && LineageOk(m, es[k + 1]);
    } else {
      assert IsBadged(es[Before(k, j)].cap);
    }
  }

  lemma {:induction false} InsertKeepsFirstBadged(m: Mdb, k: nat, e: Entry)
    requires Ids(m) && Entries(m.es) && FirstBadged(m.es) && k < |m.es| && !e.head && EntryOk(e)
             && ChildLineage(m, k, e)
    ensures FirstBadged(InsertAfter(m.es, k, e))
  {
    hide Ids, Entries, WellFormed, ChildLineage, IsBadged, SameLineage, LineageOk;
    var r := InsertAfter(m.es, k, e);
    forall i | 0 <= i < |m.es| ensures LineageOk(m, m.es[i]) { LineagesOk(m, i); }
    forall j: nat | j < |r| && IsBadged(r[j].cap)
      ensures r[j].firstBadged <==> (j == 0 || r[j].head || !SameLineage(r, j - 1, j))
    {
      InsertedFirstBadged(m, k, e, j);
    }
  }

  lemma {:induction false} InsertedRegion(m: Mdb, k: nat, e: Entry, i: nat, j: nat)
    requires Ids(m) && Regions(m.es) && k < |m.es| && Child(m, k, e) && ChildRegion(m.es, k, e)
    requires var r := InsertAfter(m.es, k, e);
             i < |r| && j < |r| && i != j && r[i].cap.Untyped? && Overlap(r[i].cap, r[j].cap)
    ensures var r := InsertAfter(m.es, k, e); Derived(r, i, j) || Derived(r, j, i)
  {
    hide Overlap, DerivedKind, EntryOk, ObjectOf;
    InsertedDerivation(m, k, e, i, j);
    InsertedDerivation(m, k, e, j, i);
    OverlapSymmetric(InsertAfter(m.es, k, e)[i].cap, InsertAfter(m.es, k, e)[j].cap);
    if i == k + 1 {
      assert Overlap(m.es[Before(k, j)].cap, e.cap);
    } else if j != k + 1 {
      assert Overlap(m.es[Before(k, i)].cap, m.es[Before(k, j)].cap);
    }
  }

  lemma {:induction false} InsertKeepsRegions(m: Mdb, k: nat, e: Entry)
    requires Ids(m) && Regions(m.es) && k < |m.es| && Child(m, k, e) && ChildRegion(m.es, k, e)
    ensures Regions(InsertAfter(m.es, k, e))
  {
    var r := InsertAfter(m.es, k, e);
    forall i: nat, j: nat | i < |r| && j < |r| && i != j && r[i].cap.Untyped? && Overlap(r[i].cap, r[j].cap)
      ensures Derived(r, i, j) || Derived(r, j, i)
    {
      InsertedRegion(m, k, e, i, j);
    }
  }

  lemma {:induction false} InsertKeepsSolid(es: seq<Entry>, k: nat, e: Entry)
    requires Solid(es) && k < |es| && ChildRegion(es, k, e)
    ensures Solid(InsertAfter(es, k, e))
  {
    var r := InsertAfter(es, k, e);
    hide InsertAfter;
    hide Overlap;
    forall i: nat, j: nat | i < |r| && j < |r| && i != j && !r[i].cap.Untyped? && !r[j].cap.Untyped?
                            && Overlap(r[i].cap, r[j].cap)
      ensures SameObjectAt(r, i, j)
    {
      OverlapSymmetric(r[i].cap, r[j].cap);
      if i == k + 1 {
        assert Overlap(es[Before(k, j)].cap, e.cap);
      } else if j == k + 1 {
        assert Overlap(es[Before(k, i)].cap, e.cap);
      } else {
        assert Overlap(es[Before(k, i)].cap, es[Before(k, j)].cap);
        assert SameObjectAt(es, Before(k, i), Before(k, j));
      }
    }
  }

  lemma {:induction false} OverlapSymmetric(a: Cap, b: Cap)
    ensures Overlap(a, b) <==> Overlap(b, a)
  {
  }

  lemma {:induction false} InsertKeepsIrqs(m: Mdb, k: nat, e: Entry)
    requires Ids(m) && Irqs(m) && k < |m.es| && Child(m, k, e) && !e.cap.IrqControl?
    requires e.cap.IrqHandler? ==> m.es[k].cap.IrqControl? || m.es[k].cap.IrqHandler?
    ensures Irqs(Inserted(m, k, e))
  {
    hide Ids, Child;
    var es, r := m.es, InsertAfter(m.es, k, e);
    forall i: nat, j: nat | i < |r| && j < |r| && i != j && r[i].cap.IrqControl?
                            && (r[j].cap.IrqControl? || r[j].cap.IrqHandler?)
      ensures Derived(r, i, j)
    {
      InsertedDerivation(m, k, e, i, j);
    }
  }

  lemma {:induction false} InsertKeepsActive(m: Mdb, k: nat, e: Entry)
    requires Active(m) && k < |m.es|
    ensures Active(Inserted(m, k, e))
  {
    var r := Inserted(m, k, e);
    forall irq | irq in r.irqs ensures HasHandler(r.es, irq) {
      if irq in m.irqs {
        assert HasHandler(m.es, irq);
        var j :| 0 <= j < |m.es| && m.es[j].cap == IrqHandler(irq);
        assert r.es[if j <= k then j else j + 1].cap == IrqHandler(irq);
      } else {
        assert r.es[k + 1].cap == IrqHandler(irq);
      }
    }
  }

  /** Every kind of insertion keeps the invariant. */
  lemma {:induction false} InsertKeepsInv(m: Mdb, k: nat, e: Entry)
    requires Inv(m) && k < |m.es| && Insertable(m, k, e)
    ensures Inv(Inserted(m, k, e))
  {
    hide Ids, Entries, Runs, Kinds, Objects, Originals, SchedControls, Lineages, FirstBadged, Regions, Solid, Irqs;
    hide Active;
    InsertKeepsIds(m, k, e);
    InsertKeepsEntries(m.es, k, e);
    InsertKeepsRuns(m, k, e);
    InsertKeepsKinds(m, k, e);
    InsertKeepsObjects(m.es, k, e);
    InsertKeepsOriginals(m, k, e);
    InsertKeepsSchedControls(m, k, e);
    InsertKeepsLineages(m, k, e);
    InsertKeepsFirstBadged(m, k, e);
    InsertKeepsRegions(m, k, e);
    InsertKeepsSolid(m.es, k, e);
    InsertKeepsIrqs(m, k, e);
    InsertKeepsActive(m, k, e);
  }

  // -------------------------------------------------------------------------- removal

  /** The entry after a removed one, when it is linked to it: it inherits mdbPrev and mdbFirstBadged. */
  function Inherit(gone: Entry, next: Entry): Entry {
    if next.head then next
    else next.(head := gone.head, firstBadged := next.firstBadged || gone.firstBadged)
  }

  /** r is es with position k unlinked, as emptySlot does. */
  predicate IsRemoval(es: seq<Entry>, k: nat, r: seq<Entry>)
    requires k < |es|
  {
    && |r| == |es| - 1
    && (forall i | 0 <= i < k :: r[i] == es[i])
    && (k < |r| ==> r[k] == Inherit(es[k], es[k + 1]))
    && (forall i | k < i < |r| :: r[i] == es[i + 1])
  }

  function RemoveAt(es: seq<Entry>, k: nat): (r: seq<Entry>)
    requires k < |es|
    ensures IsRemoval(es, k, r)
  {
    if k + 1 == |es| then es[..k] else es[..k] + [Inherit(es[k], es[k + 1])] + es[k + 2..]
  }

  /** Where position i of the new list was before the removal of k. */
  function Past(k: nat, i: nat): nat {
    if i < k then i else i + 1
  }

  function Removed(m: Mdb, k: nat): Mdb
    requires k < |m.es|
  {
    var c := m.es[k].cap;
    Mdb(RemoveAt(m.es, k), m.nextId, if c.IrqHandler? && IsFinalAt(m.es, k) then m.irqs - {c.irq} else m.irqs)
  }

  lemma {:induction false} RemoveKeepsIds(m: Mdb, k: nat, r: seq<Entry>, irqs: set<nat>)
    requires Ids(m) && k < |m.es| && IsRemoval(m.es, k, r)
    ensures Ids(m.(es := r, irqs := irqs))
  {
  }

  lemma {:induction false} RemoveKeepsEntries(es: seq<Entry>, k: nat, r: seq<Entry>)
    requires Entries(es) && k < |es| && IsRemoval(es, k, r)
    ensures Entries(r)
  {
    forall i: nat | i < |r| ensures EntryOk(r[i]) { assert EntryOk(es[Past(k, i)]); }
  }

  lemma {:induction false} RemoveKeepsRuns(es: seq<Entry>, k: nat, r: seq<Entry>)
    requires Runs(es) && k < |es| && IsRemoval(es, k, r)
    ensures Runs(r)
  {
    forall i: nat, j: nat | i < |r| && j < |r| && Derived(r, i, j)
      ensures i < j && !r[j].head && (i == j - 1 || Derived(r, i, j - 1))
    {
      assert Derived(es, Past(k, i), Past(k, j));
      if j == k {
        assert Derived(es, i, k);
        assert i != k - 1 ==> Derived(es, i, k - 1);
      } else if i < j - 1 {
        assert Derived(es, Past(k, i), Past(k, j) - 1);
        assert Past(k, j) - 1 == Past(k, j - 1);
      }
    }
  }

  lemma {:induction false} RemoveKeepsKinds(es: seq<Entry>, k: nat, r: seq<Entry>)
    requires Kinds(es) && k < |es| && IsRemoval(es, k, r)
    ensures Kinds(r)
  {
    forall i: nat, j: nat | i < |r| && j < |r| && Derived(r, i, j)
      ensures DerivedKind(r[i].cap, r[j].cap) && (IsBadged(r[i].cap) ==> r[i].lineage == r[j].lineage)
    {
      assert Derived(es, Past(k, i), Past(k, j));
    }
  }

  lemma {:induction false} RemoveKeepsObjects(es: seq<Entry>, k: nat, r: seq<Entry>)
    requires Objects(es) && k < |es| && IsRemoval(es, k, r)
    ensures Objects(r)
  {
    forall i: nat, j: nat | i < j < |r| && SameObjectAt(r, i, j) && !r[j].cap.SchedControl?
      ensures !r[j].head && SameObjectAt(r, j - 1, j)
    {
      assert SameObjectAt(es, Past(k, i), Past(k, j));
      assert SameObjectAt(es, Past(k, j) - 1, Past(k, j));
      if j == k {
        assert SameObjectAt(es, i, k);
        assert SameObjectAt(es, k - 1, k);
      }
    }
  }

  lemma {:induction false} RemoveKeepsOriginals(es: seq<Entry>, k: nat, r: seq<Entry>)
    requires Originals(es) && k < |es| && IsRemoval(es, k, r)
    ensures Originals(r)
  {
    forall i: nat, j: nat | i < |r| && j < |r| && i != j && SameObjectAt(r, i, j)
                            && r[i].revocable && !IsBadged(r[i].cap) && !r[i].cap.SchedControl?
      ensures Derived(r, i, j)
    {
      assert SameObjectAt(es, Past(k, i), Past(k, j));
    }
  }

  lemma {:induction false} SchedControlStep(es: seq<Entry>, i: nat, j: nat)
    requires SchedControls(es) && i < j < |es| && es[j].cap.SchedControl? && !es[j].head
    ensures es[j - 1].cap.SchedControl?
    ensures es[i].revocable && ReachesPrev(es, i, j) ==> Derived(es, i, j)
  {
  }

  lemma {:induction false} RemovedSchedControl(es: seq<Entry>, k: nat, r: seq<Entry>, i: nat, j: nat)
    requires SchedControls(es) && k < |es| && IsRemoval(es, k, r) && i < j < |r|
    requires r[j].cap.SchedControl? && !r[j].head
    ensures r[j - 1].cap.SchedControl?
    ensures r[i].revocable && ReachesPrev(r, i, j) ==> Derived(r, i, j)
  {
    SchedControlStep(es, Past(k, i), Past(k, j));
    if j == k { SchedControlStep(es, i, k); }
  }

  lemma {:induction false} RemoveKeepsSchedControls(es: seq<Entry>, k: nat, r: seq<Entry>)
    requires Entries(es) && SchedControls(es) && k < |es| && IsRemoval(es, k, r)
    ensures SchedControls(r)
  {
    RemoveKeepsEntries(es, k, r);
    forall j: nat | j < |r| && r[j].cap.SchedControl? && !r[j].head
      ensures j > 0 && r[j - 1].cap.SchedControl?
    {
      RemovedSchedControl(es, k, r, 0, j);
    }
    forall i: nat, j: nat | i < j < |r| && r[j].cap.SchedControl? && !r[j].head && r[i].revocable
                            && ReachesPrev(r, i, j)
      ensures Derived(r, i, j)
    {
      RemovedSchedControl(es, k, r, i, j);
    }
  }

  lemma {:induction false} RemoveKeepsLineages(es: seq<Entry>, k: nat, r: seq<Entry>)
    requires Lineages(es) && k < |es| && IsRemoval(es, k, r)
    ensures Lineages(r)
  {
    forall i: nat, j: nat | i < |r| && j < |r| && SameLineage(r, i, j)
      ensures SameBadge(r[i].cap, r[j].cap)
    {
      assert SameLineage(es, Past(k, i), Past(k, j));
    }
    forall i: nat, j: nat | i < j < |r| && SameLineage(r, i, j)
      ensures !r[j].head && SameLineage(r, j - 1, j)
    {
      assert SameLineage(es, Past(k, i), Past(k, j));
      assert SameLineage(es, Past(k, j) - 1, Past(k, j));
      if j == k {
        assert SameLineage(es, i, k);
        assert SameLineage(es, k - 1, k);
      }
    }
  }

  lemma {:induction false} InheritedFirstBadged(es: seq<Entry>, k: nat)
    requires EntryOkAt(es, k) && EntryOkAt(es, k + 1) && Lineages(es) && FirstBadged(es)
    requires IsBadged(es[k + 1].cap) && !es[k + 1].head
    ensures Inherit(es[k], es[k + 1]).firstBadged <==> (k == 0 || es[k].head || !SameLineage(es, k - 1, k + 1))
  {
    if SameLineage(es, k, k + 1) {
      assert IsBadged(es[k].cap);
    } else if k > 0 {
      assert !SameLineage(es, k - 1, k + 1);
    }
  }

  predicate EntryOkAt(es: seq<Entry>, i: nat) {
    i < |es| && EntryOk(es[i])
  }

  lemma {:induction false} UntouchedFirstBadged(es: seq<Entry>, k: nat, r: seq<Entry>, j: nat)
    requires FirstBadged(es) && k < |es| && IsRemoval(es, k, r) && j < |r| && IsBadged(r[j].cap)
    requires j != k || es[k + 1].head
    ensures r[j].firstBadged <==> (j == 0 || r[j].head || !SameLineage(r, j - 1, j))
  {
    assert IsBadged(es[Past(k, j)].cap);
    assert j > 0 && j != k ==> (SameLineage(r, j - 1, j) <==> SameLineage(es, Past(k, j) - 1, Past(k, j)));
  }

  /** The hand-over of mdbFirstBadged keeps it on the first surviving cap of each mint. */
  lemma {:induction false} RemoveKeepsFirstBadged(es: seq<Entry>, k: nat, r: seq<Entry>)
    requires Entries(es) && Lineages(es) && FirstBadged(es) && k < |es| && IsRemoval(es, k, r)
    ensures FirstBadged(r)
  {
    hide EntryOk, Lineages;
    forall j: nat | j < |r| && IsBadged(r[j].cap)
      ensures r[j].firstBadged <==> (j == 0 || r[j].head || !SameLineage(r, j - 1, j))
    {
      if j == k && !es[k + 1].head {
        InheritedFirstBadged(es, k);
        assert k > 0 ==> (SameLineage(r, k - 1, k) <==> SameLineage(es, k - 1, k + 1));
      } else {
        UntouchedFirstBadged(es, k, r, j);
      }
    }
  }

  lemma {:induction false} RemoveKeepsRegions(es: seq<Entry>, k: nat, r: seq<Entry>)
    requires Regions(es) && k < |es| && IsRemoval(es, k, r)
    ensures Regions(r)
  {
    forall i: nat, j: nat | i < |r| && j < |r| && i != j && r[i].cap.Untyped? && Overlap(r[i].cap, r[j].cap)
      ensures Derived(r, i, j) || Derived(r, j, i)
    {
      assert Overlap(es[Past(k, i)].cap, es[Past(k, j)].cap);
    }
  }

  lemma {:induction false} RemoveKeepsSolid(es: seq<Entry>, k: nat, r: seq<Entry>)
    requires Solid(es) && k < |es| && IsRemoval(es, k, r)
    ensures Solid(r)
  {
    hide Overlap;
    forall i: nat, j: nat | i < |r| && j < |r| && i != j && !r[i].cap.Untyped? && !r[j].cap.Untyped?
                            && Overlap(r[i].cap, r[j].cap)
      ensures SameObjectAt(r, i, j)
    {
      assert Overlap(es[Past(k, i)].cap, es[Past(k, j)].cap);
      assert SameObjectAt(es, Past(k, i), Past(k, j));
    }
  }

  /** Releasing an interrupt on deletion is safe because the handler cap was the last one. */
  lemma {:induction false} RemoveKeepsIrqs(m: Mdb, k: nat, r: seq<Entry>, irqs: set<nat>)
    requires Irqs(m) && k < |m.es| && IsRemoval(m.es, k, r)
    requires irqs == m.irqs || (m.es[k].cap.IrqHandler? && irqs == m.irqs - {m.es[k].cap.irq} &&
               forall j | 0 <= j < |m.es| && j != k :: !SameObjectAs(m.es[k].cap, m.es[j].cap))
    ensures Irqs(m.(es := r, irqs := irqs))
  {
    forall i: nat, j: nat | i < |r| && j < |r| && i != j && r[i].cap.IrqControl?
                            && (r[j].cap.IrqControl? || r[j].cap.IrqHandler?)
      ensures Derived(r, i, j)
    {
      assert Derived(m.es, Past(k, i), Past(k, j));
    }
    forall j: nat | j < |r| && r[j].cap.IrqHandler? ensures r[j].cap.irq in irqs {
      assert m.es[Past(k, j)].cap == r[j].cap;
    }
  }

  lemma {:induction false} RemoveKeepsActive(m: Mdb, k: nat)
    requires Active(m) && k < |m.es|
    requires m.es[k].cap.IrqHandler? && !IsFinalAt(m.es, k) ==>
               exists j :: 0 <= j < |m.es| && j != k && SameObjectAs(m.es[k].cap, m.es[j].cap)
    ensures Active(Removed(m, k))
  {
    var r := Removed(m, k);
    hide IsFinalAt;
    forall irq | irq in r.irqs ensures HasHandler(r.es, irq) {
      assert HasHandler(m.es, irq);
      var j :| 0 <= j < |m.es| && m.es[j].cap == IrqHandler(irq);
      if j == k {
        j :| 0 <= j < |m.es| && j != k && SameObjectAs(m.es[k].cap, m.es[j].cap);
      }
      assert r.es[if j < k then j else j - 1].cap == IrqHandler(irq);
    }
  }

  lemma {:induction false} RemoveKeepsInv(m: Mdb, k: nat)
    requires Inv(m) && k < |m.es|
    ensures Inv(Removed(m, k))
  {
    hide Ids, Entries, Runs, Kinds, Objects, Originals, SchedControls, Lineages, FirstBadged, Regions, Solid, Irqs;
    hide Active;
    var r := RemoveAt(m.es, k);
    RemoveKeepsIds(m, k, r, Removed(m, k).irqs);
    RemoveKeepsEntries(m.es, k, r);
    RemoveKeepsRuns(m.es, k, r);
    RemoveKeepsKinds(m.es, k, r);
    RemoveKeepsObjects(m.es, k, r);
    RemoveKeepsOriginals(m.es, k, r);
    RemoveKeepsSchedControls(m.es, k, r);
    RemoveKeepsLineages(m.es, k, r);
    RemoveKeepsFirstBadged(m.es, k, r);
    RemoveKeepsRegions(m.es, k, r);
    RemoveKeepsSolid(m.es, k, r);
    if m.es[k].cap.IrqHandler? { FinalMeansNoOtherCap(m, k); }
    RemoveKeepsIrqs(m, k, r, Removed(m, k).irqs);
    RemoveKeepsActive(m, k);
  }

  // --------------------------------------------------------------- replacing caps in place

  /** The same memory and the same role in the lists; the object may differ. */
  predicate SameRole(a: Cap, b: Cap) {
    && IsPhysical(a) == IsPhysical(b) && ObjectBase(a) == ObjectBase(b) && ObjectEnd(a) == ObjectEnd(b)
    && a.Untyped? == b.Untyped? && a.SchedControl? == b.SchedControl? && a.IrqControl? == b.IrqControl?
    && (a.IrqHandler? || b.IrqHandler? || IsBadged(a) || IsBadged(b) ==> a == b)
  }

  /** The object is unchanged, or it is no longer named and no other cap named it. */
  predicate KeepsObject(es: seq<Entry>, r: seq<Entry>, i: nat)
    requires |r| == |es| && i < |es|
  {
    || ObjectOf(r[i].cap) == ObjectOf(es[i].cap)
    || (ObjectOf(r[i].cap) == NoObject && forall j | 0 <= j < |es| && j != i :: !SameObjectAt(es, i, j))
  }

  predicate Recapped(es: seq<Entry>, r: seq<Entry>) {
    && |r| == |es|
    && (forall i | 0 <= i < |es| :: r[i] == es[i].(slot := r[i].slot, cap := r[i].cap))
    && (forall i | 0 <= i < |es| :: SameRole(es[i].cap, r[i].cap))
    && (forall i | 0 <= i < |es| :: KeepsObject(es, r, i))
  }

  lemma {:induction false} RecapObject(es: seq<Entry>, r: seq<Entry>, i: nat, j: nat)
    requires Recapped(es, r) && i < |es| && j < |es|
    ensures SameObjectAt(r, i, j) ==> SameObjectAt(es, i, j)
    ensures i != j && SameObjectAt(es, i, j) ==> SameObjectAt(r, i, j)
  {
    assert KeepsObject(es, r, i) && KeepsObject(es, r, j);
    assert SameObjectAt(es, i, j) ==> SameObjectAt(es, j, i);
  }

  lemma RecapRole(es: seq<Entry>, r: seq<Entry>, i: nat)
    requires Recapped(es, r) && i < |r|
    ensures |r| == |es| && r[i].head == es[i].head && r[i].cap.SchedControl? == es[i].cap.SchedControl?
  {
    hide KeepsObject;
    assert SameRole(es[i].cap, r[i].cap);
  }

  lemma {:induction false} RecappedNeighbour(es: seq<Entry>, r: seq<Entry>, i: nat, j: nat)
    requires Recapped(es, r) && Objects(es) && i < j < |r| && SameObjectAt(r, i, j) && !r[j].cap.SchedControl?
    ensures !r[j].head && SameObjectAt(r, j - 1, j)
  {
    hide Recapped, SameObjectAt;
    RecapRole(es, r, j);
    RecapObject(es, r, i, j);
    RecapObject(es, r, j - 1, j);
  }

  lemma {:induction false} RecapKeepsObjects(es: seq<Entry>, r: seq<Entry>)
    requires Recapped(es, r) && Objects(es)
    ensures Objects(r)
  {
    forall i: nat, j: nat | i < j < |r| && SameObjectAt(r, i, j) && !r[j].cap.SchedControl?
      ensures !r[j].head && SameObjectAt(r, j - 1, j)
    {
      RecappedNeighbour(es, r, i, j);
    }
  }

  lemma {:induction false} RecapKeepsOriginals(es: seq<Entry>, r: seq<Entry>)
    requires Recapped(es, r) && Originals(es)
    ensures Originals(r)
  {
    forall i: nat, j: nat | i < |r| && j < |r| && i != j && SameObjectAt(r, i, j)
                            && r[i].revocable && !IsBadged(r[i].cap) && !r[i].cap.SchedControl?
      ensures Derived(r, i, j)
    {
      RecapObject(es, r, i, j);
      assert SameRole(es[i].cap, r[i].cap);
    }
  }

  lemma {:induction false} RecapKeepsLineages(es: seq<Entry>, r: seq<Entry>)
    requires Recapped(es, r) && Entries(es) && Lineages(es) && FirstBadged(es)
    ensures Lineages(r) && FirstBadged(r)
  {
    forall i | 0 <= i < |es| ensures IsBadged(es[i].cap) ==> r[i].cap == es[i].cap
                             ensures IsBadged(r[i].cap) ==> r[i].cap == es[i].cap
    {
      assert SameRole(es[i].cap, r[i].cap);
    }
    forall i: nat, j: nat | i < |r| && j < |r| && SameLineage(r, i, j) ensures SameBadge(r[i].cap, r[j].cap) {
      assert SameLineage(es, i, j);
    }
    forall i: nat, j: nat | i < j < |r| && SameLineage(r, i, j) ensures !r[j].head && SameLineage(r, j - 1, j) {
      assert SameLineage(es, i, j);
      assert SameLineage(es, j - 1, j);
    }
  }

  lemma {:induction false} RecapKeepsRegions(m: Mdb, r: seq<Entry>)
    requires Recapped(m.es, r) && SchedControls(m.es) && Regions(m.es) && Irqs(m)
    ensures SchedControls(r) && Regions(r) && Irqs(m.(es := r))
  {
    var es := m.es;
    forall i | 0 <= i < |es| ensures SameRole(es[i].cap, r[i].cap) { }
    forall i: nat, j: nat | i < |r| && j < |r| && i != j && r[i].cap.Untyped? && Overlap(r[i].cap, r[j].cap)
      ensures Derived(r, i, j) || Derived(r, j, i)
    {
      assert Overlap(es[i].cap, es[j].cap);
    }
    forall i: nat, j: nat | i < j < |r| && r[j].cap.SchedControl? && !r[j].head && r[i].revocable
                            && ReachesPrev(r, i, j)
      ensures Derived(r, i, j)
    {
      assert ReachesPrev(es, i, j);
      assert Derived(es, i, j);
    }
    forall i: nat, j: nat | i < |r| && j < |r| && i != j && r[i].cap.IrqControl?
                            && (r[j].cap.IrqControl? || r[j].cap.IrqHandler?)
      ensures Derived(r, i, j)
    {
      assert Derived(es, i, j);
    }
  }

  lemma {:induction false} RecapKeepsSolid(es: seq<Entry>, r: seq<Entry>)
    requires Recapped(es, r) && Solid(es)
    ensures Solid(r)
  {
    hide ObjectOf;
    forall i: nat, j: nat | i < |r| && j < |r| && i != j && !r[i].cap.Untyped? && !r[j].cap.Untyped?
                            && Overlap(r[i].cap, r[j].cap)
      ensures SameObjectAt(r, i, j)
    {
      assert SameRole(es[i].cap, r[i].cap) && SameRole(es[j].cap, r[j].cap);
      assert Overlap(es[i].cap, es[j].cap);
      RecapObject(es, r, i, j);
    }
  }

  lemma {:induction false} RecapKeepsRuns(m: Mdb, r: seq<Entry>)
    requires Recapped(m.es, r) && Ids(m) && Runs(m.es)
    ensures Ids(m.(es := r)) && Runs(r)
  {
    forall i: nat, j: nat | i < |r| && j < |r| && Derived(r, i, j)
      ensures i < j && !r[j].head && (i == j - 1 || Derived(r, i, j - 1))
    {
      assert Derived(m.es, i, j);
      assert i != j - 1 ==> Derived(m.es, i, j - 1);
    }
  }

  lemma {:induction false} RecapKeepsActive(m: Mdb, r: seq<Entry>)
    requires Recapped(m.es, r) && Active(m)
    ensures Active(m.(es := r))
  {
    forall irq | irq in m.irqs ensures HasHandler(r, irq) {
      assert HasHandler(m.es, irq);
      var j :| 0 <= j < |m.es| && m.es[j].cap == IrqHandler(irq);
      assert SameRole(m.es[j].cap, r[j].cap);
    }
  }

  lemma {:induction false} RecapKeepsInv(m: Mdb, r: seq<Entry>)
    requires Inv(m) && Recapped(m.es, r) && Entries(r) && Kinds(r)
    ensures Inv(m.(es := r))
  {
    hide Recapped, Ids, Entries, Runs, Kinds, Objects, Originals, SchedControls;
    hide Lineages, FirstBadged, Regions, Solid, Irqs, Active;
    RecapKeepsRuns(m, r);
    RecapKeepsObjects(m.es, r);
    RecapKeepsOriginals(m.es, r);
    RecapKeepsLineages(m.es, r);
    RecapKeepsRegions(m, r);
    RecapKeepsSolid(m.es, r);
    RecapKeepsActive(m, r);
  }
}
