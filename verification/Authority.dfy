/** What a cap lets its holder do, over whole runs: rights only shrink, and revoking reaches all that was handed on. */
module Authority {
  import opened Caps
  import opened MdbList
  import opened MdbOps
  import opened MdbRuns

  /** cteInsert makes a cap revocable exactly if it is more than another copy of its source. */
  lemma InsertedIsRevocable(m: Mdb, k: nat, slot: nat, cap: Cap)
    requires Inv(m) && k < |m.es| && MayInsert(m, k, cap)
    ensures var src, r := m.es[k].cap, CteInsert(m, k, slot, cap);
            && k + 1 < |r.es| && r.es[k + 1].slot == slot && r.es[k + 1].cap == cap
            && Derived(r.es, k, k + 1)
            && (r.es[k + 1].revocable <==>
                  cap.Untyped? || ObjectOf(cap) != ObjectOf(src) || BadgeOf(cap) != BadgeOf(src))
  {
    CteInsertKeepsInv(m, k, slot, cap);
    var r := CteInsert(m, k, slot, cap);
    assert EntryOk(r.es[k + 1]);
  }

  /** Along derivations an object stays the same, rights only shrink, and a badge, once set, stays. */
  lemma RightsOnlyShrink(m: Mdb, i: nat, j: nat)
    requires Inv(m) && i < |m.es| && j < |m.es| && Derived(m.es, i, j) && ObjectOf(m.es[i].cap) != NoObject
    ensures var a, b := m.es[i].cap, m.es[j].cap;
            && ObjectOf(b) == ObjectOf(a) && RightsOf(b) <= RightsOf(a)
            && (BadgeOf(a) != 0 ==> BadgeOf(b) == BadgeOf(a))
  {
    var a, b := m.es[i].cap, m.es[j].cap;
    assert DerivedKind(a, b);
    if IsBadged(a) {
      assert EntryOk(m.es[i]);
      assert SameLineage(m.es, i, j);
    }
  }

  /** A cap has the rights, the badge and the object it was made with, unless it has become a zombie. */
  lemma KeepsItsRights(m: Mdb, i: nat)
    requires Inv(m) && i < |m.es| && !m.es[i].cap.Zombie?
    ensures var made, c := m.es[i].origin.made, m.es[i].cap;
            ObjectOf(c) == ObjectOf(made) && RightsOf(c) == RightsOf(made) && BadgeOf(c) == BadgeOf(made)
  {
    assert EntryOk(m.es[i]);
  }

  /**
   * In every reachable state, for every cap: it is revocable exactly if by its history it is more than a copy; if it
   * is, then all other caps to its object come from it, or for a badge all other caps of the same mint; and whatever
   * comes from it has no more rights.
   */
  lemma ReachableAuthority(run: seq<Step>, i: nat, j: nat)
    requires IsRun(Mdb([], 0, {}), run)
    requires i < |Final(Mdb([], 0, {}), run).es| && j < |Final(Mdb([], 0, {}), run).es| && i != j
    ensures var es := Final(Mdb([], 0, {}), run).es;
            && (es[i].revocable <==> IsOriginal(es[i].origin))
            && (es[i].revocable && SameObjectAt(es, i, j) && !IsBadged(es[i].cap) && !es[i].cap.SchedControl? ==>
                  Derived(es, i, j))
            && (es[i].revocable && SameLineage(es, i, j) ==> Derived(es, i, j))
            && (Derived(es, i, j) && ObjectOf(es[i].cap) != NoObject ==>
                  SameObjectAt(es, i, j) && RightsOf(es[j].cap) <= RightsOf(es[i].cap))
  {
    EmptyInv();
    RunKeepsInv(Mdb([], 0, {}), run);
    var m := Final(Mdb([], 0, {}), run);
    assert EntryOk(m.es[i]) && EntryOk(m.es[j]);
    hide Final, IsRun;
    if m.es[i].revocable { OriginalIsSource(m, i, j); }
    hide Inv;
    if Derived(m.es, i, j) && ObjectOf(m.es[i].cap) != NoObject { RightsOnlyShrink(m, i, j); }
  }

  lemma OriginalIsSource(m: Mdb, i: nat, j: nat)
    requires Inv(m) && i < |m.es| && j < |m.es| && i != j && m.es[i].revocable
    ensures SameObjectAt(m.es, i, j) && !IsBadged(m.es[i].cap) && !m.es[i].cap.SchedControl? ==> Derived(m.es, i, j)
    ensures SameLineage(m.es, i, j) ==> Derived(m.es, i, j)
  {
    assert EntryOk(m.es[i]) && EntryOk(m.es[j]);
    if SameLineage(m.es, i, j) { LineageOfMint(m.es[i], m.es[j]); }
  }
}
