/** The profiler's hash table of program counters: double hashing over a table of prime size. */
module Profiler {
  import opened Words
  import opened Primes

  const TABLE_SIZE: nat := 94349
  const HASH_STEPS: nat := 1024
  const MAX_ENTRIES: nat := 70761

  datatype Entry = Entry(pc: Word, count: nat)

  function Hash(pc: Word): (h: nat)
    ensures h < TABLE_SIZE
  {
    (pc / 4) % TABLE_SIZE
  }

  function HashStep(pc: Word): (s: nat)
    ensures 0 < s <= HASH_STEPS
  {
    (pc / 4) % HASH_STEPS + 1
  }

  function SlotAt(pc: Word, k: nat): (r: nat)
    ensures r < TABLE_SIZE
  {
    Probe(TABLE_SIZE, Hash(pc), HashStep(pc), k)
  }

  /** Slots in use. */
  function Used(t: seq<Entry>): nat {
    if t == [] then 0 else (if t[0].pc != 0 then 1 else 0) + Used(t[1..])
  }

  /** Samples counted in the slots in use. */
  function Tally(t: seq<Entry>): nat {
    if t == [] then 0 else (if t[0].pc != 0 then t[0].count else 0) + Tally(t[1..])
  }

  lemma {:induction false} UpdateTotals(t: seq<Entry>, i: nat, e: Entry)
    requires i < |t|
    ensures Used(t[i := e]) == Used(t) - (if t[i].pc != 0 then 1 else 0) + (if e.pc != 0 then 1 else 0)
    ensures Tally(t[i := e]) == Tally(t) - (if t[i].pc != 0 then t[i].count else 0) + (if e.pc != 0 then e.count else 0)
  {
    if i == 0 {
      assert t[0 := e][1..] == t[1..];
    } else {
      assert t[i := e][1..] == t[1..][i - 1 := e];
      UpdateTotals(t[1..], i - 1, e);
    }
  }

  lemma {:induction false} FreeSlot(t: seq<Entry>) returns (i: nat)
    requires Used(t) < |t|
    ensures i < |t| && t[i].pc == 0
  {
    if t[0].pc == 0 {
      i := 0;
    } else {
      var j := FreeSlot(t[1..]);
      i := j + 1;
    }
  }

  /** pc sits where its k-th probe leads, and the slots of all earlier probes are taken by others. */
  predicate PlacedAt(t: seq<Entry>, pc: Word, k: nat)
    requires |t| == TABLE_SIZE
  {
    && t[SlotAt(pc, k)].pc == pc
    && forall j :: 0 <= j < k ==> t[SlotAt(pc, j)].pc != 0 && t[SlotAt(pc, j)].pc != pc
  }

  /** The table holds exactly the program counters in counts, each where its probe sequence finds it. */
  predicate Consistent(t: seq<Entry>, counts: map<Word, nat>, probes: map<Word, nat>) {
    && |t| == TABLE_SIZE
    && counts.Keys == probes.Keys && 0 !in counts
    && (forall pc :: pc in counts ==> PlacedAt(t, pc, probes[pc]) && t[SlotAt(pc, probes[pc])].count == counts[pc])
    && (forall i :: 0 <= i < |t| && t[i].pc != 0 ==> t[i].pc in counts && SlotAt(t[i].pc, probes[t[i].pc]) == i)
  }

  /** The first k probes for pc found other program counters. */
  predicate Passed(t: seq<Entry>, pc: Word, k: nat)
    requires |t| == TABLE_SIZE
  {
    forall j :: 0 <= j < k ==> t[SlotAt(pc, j)].pc != 0 && t[SlotAt(pc, j)].pc != pc
  }

  /** A free slot reached without finding pc shows that pc is not in the table. */
  lemma FreeMeansAbsent(t: seq<Entry>, counts: map<Word, nat>, probes: map<Word, nat>, pc: Word, k: nat)
    requires Consistent(t, counts, probes) && Passed(t, pc, k) && t[SlotAt(pc, k)].pc == 0
    ensures pc !in counts
  {
    if pc != 0 && pc in counts { NotPlaced(t, pc, k, probes[pc]); }
  }

  lemma NotPlaced(t: seq<Entry>, pc: Word, k: nat, p: nat)
    requires |t| == TABLE_SIZE && Passed(t, pc, k) && t[SlotAt(pc, k)].pc == 0 && pc != 0
    ensures !PlacedAt(t, pc, p)
  {
  }

  lemma AddKeeps(t: seq<Entry>, counts: map<Word, nat>, probes: map<Word, nat>, pc: Word, k: nat)
    requires Consistent(t, counts, probes) && Passed(t, pc, k) && t[SlotAt(pc, k)].pc == 0 && pc != 0
    ensures Consistent(t[SlotAt(pc, k) := Entry(pc, 1)], counts[pc := 1], probes[pc := k])
  {
    hide SlotAt;
    FreeMeansAbsent(t, counts, probes, pc, k);
    var i := SlotAt(pc, k);
    var t' := t[i := Entry(pc, 1)];
    var counts', probes' := counts[pc := 1], probes[pc := k];
    forall q | q in counts'
      ensures PlacedAt(t', q, probes'[q]) && t'[SlotAt(q, probes'[q])].count == counts'[q]
    {
      if q != pc { assert PlacedAt(t, q, probes[q]); }
    }
  }

  lemma CountKeeps(t: seq<Entry>, counts: map<Word, nat>, probes: map<Word, nat>, i: nat)
    requires Consistent(t, counts, probes) && i < |t| && t[i].pc != 0
    ensures t[i].pc in counts && counts[t[i].pc] == t[i].count
    ensures Consistent(t[i := Entry(t[i].pc, t[i].count + 1)], counts[t[i].pc := t[i].count + 1], probes)
  {
    hide SlotAt;
    var pc := t[i].pc;
    var t' := t[i := Entry(pc, t[i].count + 1)];
    assert PlacedAt(t, pc, probes[pc]);
    forall q | q in counts
      ensures PlacedAt(t', q, probes[q])
    {
      assert PlacedAt(t, q, probes[q]);
    }
  }

  lemma ZeroKeeps(t: seq<Entry>, counts: map<Word, nat>, probes: map<Word, nat>, i: nat, n: nat)
    requires Consistent(t, counts, probes) && i < |t| && t[i].pc == 0
    ensures Consistent(t[i := Entry(0, n)], counts, probes)
  {
    hide SlotAt;
    var t' := t[i := Entry(0, n)];
    forall q | q in counts
      ensures PlacedAt(t', q, probes[q]) && t'[SlotAt(q, probes[q])].count == counts[q]
    {
      assert PlacedAt(t, q, probes[q]);
    }
  }

  class Table {
    const entries: array<Entry>
    var enabled: bool
    var numEntries: nat
    var dropped: nat
    /** How often each program counter was recorded, and by which probe it was placed. */
    ghost var counts: map<Word, nat>
    ghost var probes: map<Word, nat>

    constructor ()
      ensures Valid() && counts == map[] && dropped == 0 && enabled && fresh(entries)
    {
      entries := new Entry[TABLE_SIZE](_ => Entry(0, 0));
      enabled, numEntries, dropped, counts, probes := true, 0, 0, map[], map[];
      new;
      EmptyTotals(entries[..]);
    }

    ghost predicate Valid()
      reads this, entries
    {
      && Consistent(entries[..], counts, probes)
      && numEntries == Used(entries[..]) <= MAX_ENTRIES
    }

    /** profiler_reset */
    method Reset()
      requires Valid()
      modifies this, entries
      ensures Valid() && counts == map[] && dropped == 0 && enabled == old(enabled)
    {
      for i := 0 to TABLE_SIZE
        invariant entries.Length == TABLE_SIZE && enabled == old(enabled)
        invariant forall k :: 0 <= k < i ==> entries[k] == Entry(0, 0)
      {
        entries[i] := Entry(0, 0);
      }
      numEntries, dropped, counts, probes := 0, 0, map[], map[];
      EmptyTotals(entries[..]);
    }

    /**
     * profiler_record_sample. The probe loop always stops, because the table is never full and its size
     * is prime; and every sample of a program counter other than 0 is counted or reported as dropped.
     */
    method RecordSample(pc: Word)
      requires Valid()
      modifies this, entries
      ensures Valid() && enabled == old(enabled)
      ensures !enabled || pc == 0 ==> counts == old(counts) && dropped == old(dropped)
      ensures enabled && pc in old(counts) ==>
                counts == old(counts)[pc := old(counts)[pc] + 1] && dropped == old(dropped)
      ensures enabled && pc != 0 && pc !in old(counts) ==>
                if old(numEntries) < MAX_ENTRIES
                then counts == old(counts)[pc := 1] && dropped == old(dropped)
                else counts == old(counts) && dropped == old(dropped) + 1
      ensures Tally(entries[..]) + dropped
           == old(Tally(entries[..]) + dropped) + if enabled && pc != 0 then 1 else 0
    {
      hide Consistent, Used, Tally, PlacedAt, Passed, Probe;
      if !enabled { return; }
      ghost var t := entries[..];
      TableLength(t, counts, probes);
      ghost var free := FreeSlot(t);
      TableSizeIsPrime();
      ghost var limit := ProbesReachEverySlot(TABLE_SIZE, Hash(pc), HashStep(pc), free);
      ProbeNext(TABLE_SIZE, Hash(pc), HashStep(pc), 0);
      PassedNone(t, pc);
      var hash := Hash(pc);
      ghost var k := 0;
      while true
        invariant entries[..] == t && k <= limit && hash == SlotAt(pc, k) && Passed(t, pc, k)
        invariant enabled && numEntries == old(numEntries) && dropped == old(dropped)
        invariant counts == old(counts) && probes == old(probes)
        decreases limit - k
      {
        ghost var e := t[hash];
        if entries[hash].pc == pc {
          UpdateTotals(t, hash, Entry(pc, e.count + 1));
          if pc == 0 {
            ZeroKeeps(t, counts, probes, hash, e.count + 1);
            FreeMeansAbsent(t, counts, probes, pc, k);
          } else {
            CountKeeps(t, counts, probes, hash);
            counts := counts[pc := e.count + 1];
          }
          entries[hash] := Entry(pc, entries[hash].count + 1);
          return;
        } else if entries[hash].pc == 0 {
          FreeMeansAbsent(t, counts, probes, pc, k);
          if numEntries < MAX_ENTRIES {
            UpdateTotals(t, hash, Entry(pc, 1));
            AddKeeps(t, counts, probes, pc, k);
            counts, probes := counts[pc := 1], probes[pc := k];
            entries[hash] := Entry(pc, 1);
            numEntries := numEntries + 1;
          } else {
            dropped := dropped + 1;
          }
          return;
        }
        PassedMore(t, pc, k);
        ProbeNext(TABLE_SIZE, Hash(pc), HashStep(pc), k);
        hash := (hash + HashStep(pc)) % TABLE_SIZE;
        k := k + 1;
      }
    }
  }

  lemma TableLength(t: seq<Entry>, counts: map<Word, nat>, probes: map<Word, nat>)
    requires Consistent(t, counts, probes)
    ensures |t| == TABLE_SIZE
  {
  }

  lemma PassedNone(t: seq<Entry>, pc: Word)
    requires |t| == TABLE_SIZE
    ensures Passed(t, pc, 0)
  {
  }

  lemma PassedMore(t: seq<Entry>, pc: Word, k: nat)
    requires |t| == TABLE_SIZE && Passed(t, pc, k)
    requires t[SlotAt(pc, k)].pc != 0 && t[SlotAt(pc, k)].pc != pc
    ensures Passed(t, pc, k + 1)
  {
  }

  lemma {:induction false} EmptyTotals(t: seq<Entry>)
    requires forall i :: 0 <= i < |t| ==> t[i] == Entry(0, 0)
    ensures Used(t) == 0 && Tally(t) == 0
  {
    if t != [] { EmptyTotals(t[1..]); }
  }
}
