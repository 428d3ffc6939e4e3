/** server/unused.go: the sweep that deletes unused databases in batches. */
module Sweep {
  import opened Basics
  import opened Store
  import opened Memory
  import opened Runs
  import opened MemoryStore

  const SWEEP_BATCH: nat := 100

  function UnusedKeys(s: StoreState, cutoff: int): set<Key> {
    set k | k in s.dbs && Unused(s, cutoff, k)
  }

  /** The databases `done`, all unused before, are removed, and a slot is left exactly if it was claimed at or after the
      cutoff or its key still has a database. */
  ghost predicate Swept(before: StoreState, after: StoreState, cutoff: int, done: seq<Key>) {
    && Distinct(done) && (forall k :: k in done ==> k in before.dbs && Unused(before, cutoff, k))
    && after.dbs == SweepDbs(before, done)
    && after.slots == KeptSlots(before.slots, after.dbs, cutoff)
  }

  lemma LiveIsUntouched(before: StoreState, after: StoreState, cutoff: int, done: seq<Key>, k: Key)
    requires Swept(before, after, cutoff, done) && k in after.dbs && !after.dbs[k].deleted
    ensures k !in done && k in before.dbs && after.dbs[k] == before.dbs[k]
    ensures HoldsSlot(after.slots, k.subject) <==> HoldsSlot(before.slots, k.subject)
  {
    assert HasDatabases(after.dbs, k.subject);
    if HoldsSlot(before.slots, k.subject) {
      var o :| o in before.slots && before.slots[o].subject == k.subject;
      assert o in after.slots;
    }
  }

  lemma SweepDbsAgain(before: StoreState, after: StoreState, cutoff: int, done: seq<Key>, chosen: seq<Key>)
    requires Swept(before, after, cutoff, done)
    requires forall k :: k in chosen ==> k in after.dbs && Unused(after, cutoff, k)
    ensures SweepDbs(after, chosen) == SweepDbs(before, done + chosen)
  {
    forall k ensures Lookup(SweepDbs(after, chosen), k) == Lookup(SweepDbs(before, done + chosen), k) {
      if k in chosen { LiveIsUntouched(before, after, cutoff, done, k); }
    }
    SameMaps(SweepDbs(after, chosen), SweepDbs(before, done + chosen));
  }

  lemma KeptAgain(slots: map<string, Slot>, a: map<Key, Record>, b: map<Key, Record>, cutoff: int)
    requires forall k :: k in b && !b[k].deleted ==> k in a && !a[k].deleted
    ensures KeptSlots(KeptSlots(slots, a, cutoff), b, cutoff) == KeptSlots(slots, b, cutoff)
  {
    forall x | HasDatabases(b, x) ensures HasDatabases(a, x) {
      var k :| k in b && k.subject == x && !b[k].deleted;
    }
  }

  /** One more batch. */
  lemma SweptAgain(before: StoreState, after: StoreState, cutoff: int, done: seq<Key>, limit: nat, chosen: seq<Key>)
    requires Swept(before, after, cutoff, done) && OldestUnused(after, cutoff, limit, chosen)
    ensures Swept(before, SweepStep(after, cutoff, chosen), cutoff, done + chosen)
    ensures UnusedKeys(SweepStep(after, cutoff, chosen), cutoff) == UnusedKeys(after, cutoff) - Elements(chosen)
    ensures |chosen| < limit ==> UnusedKeys(SweepStep(after, cutoff, chosen), cutoff) == {}
  {
    assert forall k :: k in chosen ==> k in after.dbs && Unused(after, cutoff, k);
    forall k | k in chosen ensures k !in done && k in before.dbs && Unused(before, cutoff, k) {
      LiveIsUntouched(before, after, cutoff, done, k);
    }
    SweepDbsAgain(before, after, cutoff, done, chosen);
    KeptAgain(before.slots, after.dbs, SweepDbs(after, chosen), cutoff);
  }

  /** The first batch starts from any state. */
  lemma SweptOnce(before: StoreState, cutoff: int, limit: nat, chosen: seq<Key>)
    requires OldestUnused(before, cutoff, limit, chosen)
    ensures Swept(before, SweepStep(before, cutoff, chosen), cutoff, chosen)
    ensures UnusedKeys(SweepStep(before, cutoff, chosen), cutoff) == UnusedKeys(before, cutoff) - Elements(chosen)
    ensures |chosen| < limit ==> UnusedKeys(SweepStep(before, cutoff, chosen), cutoff) == {}
  {
    assert forall k :: k in chosen ==> k in before.dbs && Unused(before, cutoff, k);
  }

  /** What is left when no unused database is left: exactly the unused ones were deleted, once each; every other one is
      as before; and no slot claimed before the cutoff belongs to a key without a database. */
  lemma SweptAll(before: StoreState, after: StoreState, cutoff: int, done: seq<Key>, k: Key)
    requires Swept(before, after, cutoff, done) && UnusedKeys(after, cutoff) == {}
    ensures k in done <==> k in before.dbs && !before.dbs[k].deleted && before.dbs[k].expiresAt < cutoff
    ensures Lookup(after.dbs, k)
            == if k !in done then Lookup(before.dbs, k)
               else if exists o :: o in before.slots && before.slots[o].subject == k.subject then None
               else Some(Remove(before.dbs[k]))
    ensures forall o :: o in after.slots <==>
                          o in before.slots && (before.slots[o].claimedAt >= cutoff ||
                                                HasDatabases(after.dbs, before.slots[o].subject))
    ensures forall o :: o in after.slots ==> after.slots[o] == before.slots[o]
  {
    assert Unused(after, cutoff, k) ==> k in UnusedKeys(after, cutoff);
  }

  /** After some batches, perhaps none. */
  ghost predicate SoFar(before: StoreState, s: StoreState, cutoff: int, done: seq<Key>) {
    (done == [] && s == before) || Swept(before, s, cutoff, done)
  }

  /** A full batch leaves fewer unused databases, any other one none. */
  lemma BatchDone(before: StoreState, s: StoreState, cutoff: int, done: seq<Key>, chosen: seq<Key>, s': StoreState)
    requires SoFar(before, s, cutoff, done) && OldestUnused(s, cutoff, SWEEP_BATCH, chosen)
    requires s' == SweepStep(s, cutoff, chosen)
    ensures Swept(before, s', cutoff, done + chosen)
    ensures if |chosen| < SWEEP_BATCH then UnusedKeys(s', cutoff) == {} else UnusedKeys(s', cutoff) < UnusedKeys(s, cutoff)
  {
    if done == [] && s == before {
      SweptOnce(s, cutoff, SWEEP_BATCH, chosen);
      assert done + chosen == chosen;
    } else {
      SweptAgain(before, s, cutoff, done, SWEEP_BATCH, chosen);
    }
    if |chosen| == SWEEP_BATCH {
      assert Unused(s, cutoff, chosen[0]) && chosen[0] in UnusedKeys(s, cutoff) && chosen[0] in Elements(chosen);
    }
  }

  lemma SweptStep(s: StoreState, cutoff: int, chosen: seq<Key>, s': StoreState)
    requires Legal(s, DeleteUnused(cutoff, SWEEP_BATCH, chosen))
    requires Step(s, DeleteUnused(cutoff, SWEEP_BATCH, chosen)) == (s', Keys(chosen))
    ensures s' == SweepStep(s, cutoff, chosen) && OldestUnused(s, cutoff, SWEEP_BATCH, chosen)
  {}

  method Batch(st: Storage, cutoff: int) returns (keys: seq<Key>)
    requires st.Valid()
    modifies st, st.dbs.Values
    ensures st.Valid() && st.dbs.Values <= old(st.dbs.Values)
    ensures OldestUnused(old(st.Contents()), cutoff, SWEEP_BATCH, keys)
    ensures st.Contents() == SweepStep(old(st.Contents()), cutoff, keys)
  {
    ghost var s := st.Contents();
    var reply := st.DeleteUnused(cutoff, SWEEP_BATCH);
    keys := reply.keys;
    SweptStep(s, cutoff, keys, st.Contents());
  }

  /** sweep: batches until one is not full. It terminates, because every full batch leaves fewer unused databases. */
  method RunSweep(st: Storage, cutoff: int) returns (deleted: nat, ghost done: seq<Key>)
    requires st.Valid()
    modifies st, st.dbs.Values
    ensures st.Valid() && deleted == |done|
    ensures Swept(old(st.Contents()), st.Contents(), cutoff, done) && UnusedKeys(st.Contents(), cutoff) == {}
  {
    ghost var before := st.Contents();
    deleted, done := 0, [];
    while true
      invariant st.Valid() && st.dbs.Values <= old(st.dbs.Values) && deleted == |done|
      invariant SoFar(before, st.Contents(), cutoff, done)
      decreases UnusedKeys(st.Contents(), cutoff)
    {
      ghost var s := st.Contents();
      var keys := Batch(st, cutoff);
      BatchDone(before, s, cutoff, done, keys, st.Contents());
      done := done + keys;
      deleted := deleted + |keys|;
      if |keys| < SWEEP_BATCH { return; }
    }
  }
}
