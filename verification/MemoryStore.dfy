/** internal/store/memory/memory.go in its own form: a store object with maps of database objects that the methods
    update in place. Every method is proved against the step function of Memory, and the store carries the run of all
    calls so far, so that the results about runs hold for it. */
module MemoryStore {
  import opened Basics
  import opened Store
  import opened Memory
  import opened Runs

  class Database {
    var deleted: bool
    var state: State
    var blocks: map<u64, Bytes>
    var changes: seq<Change>
    var lease: Lease
    var holder: Option<Bytes>
    var grantedAt: int
    var expiresAt: int

    ghost function Value(): Record
      reads this
    {
      Record(deleted, state, blocks, changes, lease, holder, grantedAt, expiresAt)
    }

    constructor (pageSize: u32)
      ensures Value() == Fresh(pageSize)
    {
      deleted, state, blocks, changes := false, State(pageSize, 0, 0, []), map[], [];
      lease, holder, grantedAt, expiresAt := Lease([], 0), None, 0, 0;
    }

    /** database.remove */
    method Remove()
      modifies this
      ensures Value() == Memory.Remove(old(Value()))
    {
      deleted := true;
      blocks := map[];
      changes := [];
      state := State(state.pageSize, 0, Inc(state.version), []);
      lease := Lease([], Inc(lease.epoch));
      holder := None;
    }

    /** The part of Open that resumes or grants the lease. */
    method TakeLease(q: OpenRequest, id: Bytes) returns (reply: Reply)
      modifies this
      ensures (Value(), reply) == Memory.TakeLease(old(Value()), q, id)
    {
      if q.resume.Some? {
        if holder.None? || lease.epoch != q.resume.value.leaseEpoch || lease.id != q.resume.value.leaseID {
          return Failed(Fenced);
        }
        expiresAt := q.now + q.ttl;
        return Opened(lease, state, false);
      }
      var active := holder.Some? && q.now < expiresAt;
      if active && !q.takeover && !SameBytes(holder, q.instance) {
        return Failed(LeaseHeld(grantedAt));
      }
      lease := Lease(id, Inc(lease.epoch));
      holder := q.instance;
      grantedAt := q.now;
      expiresAt := q.now + q.ttl;
      return Opened(lease, state, active);
    }

    /** The loop of Fetch. */
    method ReadBlocks(first: u64, count: u64) returns (out: seq<Bytes>)
      requires first + count <= MAX64
      ensures out == ReadRange(Value(), first, count)
    {
      out := [];
      var i := 0;
      while i < count
        invariant 0 <= i <= count && |out| == i
        invariant forall j :: 0 <= j < i ==> out[j] == Read(Value(), first + j)
      {
        if first + i in blocks {
          out := out + [blocks[first + i]];
        } else {
          out := out + [Zeros(state.pageSize)];
        }
        i := i + 1;
      }
    }

    /** The part of Commit that writes the blocks and cuts the file to its new length. */
    method WriteAndTruncate(q: CommitRequest)
      modifies this`blocks
      ensures blocks == Truncate(WriteBlocks(old(blocks), q.blocks), q.pageCount)
    {
      var n := 0;
      while n < |q.blocks|
        invariant n <= |q.blocks| && blocks == WriteBlocks(old(blocks), q.blocks[..n])
      {
        assert q.blocks[..n + 1][..n] == q.blocks[..n];
        blocks := blocks[q.blocks[n].index := q.blocks[n].data];
        n := n + 1;
      }
      assert q.blocks[..n] == q.blocks;
      ghost var written := blocks;
      var rest := blocks.Keys;
      while rest != {}
        invariant rest <= written.Keys
        invariant blocks == map i | i in written && (i < q.pageCount || i in rest) :: written[i]
        decreases rest
      {
        var index :| index in rest;
        rest := rest - {index};
        if index >= q.pageCount { blocks := blocks - {index}; }
      }
    }

    /** The rest of Commit: state, lease and change log. */
    method Commit(q: CommitRequest)
      modifies this
      ensures Value() == Apply(old(Value()), q)
    {
      WriteAndTruncate(q);
      state := State(state.pageSize, q.pageCount, Inc(state.version), q.commitID);
      expiresAt := q.now + q.ttl;
      var touched := Touched(q.blocks);
      changes := changes + [Change(state.version, touched)];
      if |changes| > CHANGE_WINDOW { changes := changes[|changes| - CHANGE_WINDOW..]; }
    }
  }

  function Elements<T>(s: seq<T>): set<T> { set x | x in s }

  lemma ElementsAdd<T>(a: seq<T>, b: seq<T>)
    ensures Elements(a + b) == Elements(a) + Elements(b)
  {}

  lemma IndexesNext(blocks: seq<Block>, n: nat)
    requires n < |blocks|
    ensures Indexes(blocks[..n + 1]) == Indexes(blocks[..n]) + {blocks[n].index}
  {
    assert blocks[..n + 1] == blocks[..n] + [blocks[n]];
  }

  /** The sorted indexes of a commit's blocks, for the change log. */
  method Touched(blocks: seq<Block>) returns (touched: seq<u64>)
    ensures touched == SortedIndexes(Indexes(blocks))
  {
    touched := [];
    var n := 0;
    while n < |blocks|
      invariant n <= |blocks| && Elements(touched) == Indexes(blocks[..n])
    {
      IndexesNext(blocks, n);
      ElementsAdd(touched, [blocks[n].index]);
      touched := touched + [blocks[n].index];
      n := n + 1;
    }
    assert blocks[..n] == blocks;
    Orders();
    touched := Sort(touched, Below);
  }

  lemma WrittenNext(log: seq<Change>, n: nat, from: u64)
    requires n < |log|
    ensures WrittenAfter(log[..n + 1], from)
            == WrittenAfter(log[..n], from) + (if log[n].version > from then Elements(log[n].blocks) else {})
  {
    assert forall m :: 0 <= m < n ==> log[..n + 1][m] == log[..n][m];
    assert log[..n + 1][n] == log[n];
  }

  /** The loop of Changes: the indexes in the entries after `from`, sorted and without duplicates. */
  method Seen(log: seq<Change>, from: u64) returns (seen: seq<u64>)
    ensures seen == SortedIndexes(WrittenAfter(log, from))
  {
    seen := [];
    var n := 0;
    while n < |log|
      invariant n <= |log| && Elements(seen) == WrittenAfter(log[..n], from)
    {
      WrittenNext(log, n, from);
      if log[n].version > from {
        ElementsAdd(seen, log[n].blocks);
        seen := seen + log[n].blocks;
      }
      n := n + 1;
    }
    assert log[..n] == log;
    Orders();
    seen := Sort(seen, Below);
  }

  lemma OneRecord(s: StoreState, e: Event, s': StoreState, r: Option<Record>, reply: Reply)
    requires OnDatabase(e) && !(e.Open? && LockedOut(s, e.open))
    requires RecordStep(Lookup(s.dbs, KeyOf(e)), e) == (r, reply) && s' == s.(dbs := Put(s.dbs, KeyOf(e), r))
    ensures Step(s, e) == (s', reply)
  {}

  lemma Unchanged(s: StoreState, e: Event, reply: Reply)
    requires OnDatabase(e) && !(e.Open? && LockedOut(s, e.open))
    requires RecordStep(Lookup(s.dbs, KeyOf(e)), e) == (Lookup(s.dbs, KeyOf(e)), reply)
    ensures Step(s, e) == (s, reply)
  {
    assert Put(s.dbs, KeyOf(e), Lookup(s.dbs, KeyOf(e))) == s.dbs;
  }

  function LiveAmong(dbs: map<Key, Record>, keys: set<Key>, subject: string): set<string> {
    set k | k in keys && k in dbs && k.subject == subject && !dbs[k].deleted :: k.dbid
  }

  lemma LiveNext(dbs: map<Key, Record>, keys: set<Key>, subject: string, k: Key)
    requires k in dbs
    ensures LiveAmong(dbs, keys + {k}, subject)
            == LiveAmong(dbs, keys, subject) + (if k.subject == subject && !dbs[k].deleted then {k.dbid} else {})
  {}

  /** Sorts the keys of one subject by database ID. */
  method SortKeys(ids: seq<string>, subject: string) returns (keys: seq<Key>)
    ensures keys == KeysFor(Elements(ids), subject)
  {
    Orders();
    var sorted := Sort(ids, Before);
    keys := KeysWith(subject, sorted);
  }

  lemma LiveKeysAre(dbs: map<Key, Record>, subject: string, ids: seq<string>, keys: seq<Key>)
    requires Elements(ids) == LiveIDs(dbs, subject) && keys == KeysFor(Elements(ids), subject)
    ensures keys == LiveKeys(dbs, subject)
  {}

  lemma DeleteSlotDone(s: StoreState, owner: string, subject: string, s': StoreState, purged: seq<Key>)
    requires !(owner in s.slots && s.slots[owner].subject != subject)
    requires s'.dbs == WithoutSubject(s.dbs, subject) && s'.slots == s.slots - {owner} && purged == LiveKeys(s.dbs, subject)
    ensures Step(s, DeleteSlot(owner, subject)) == (s', Keys(purged))
  {}

  lemma ClaimDone(s: StoreState, q: ClaimRequest, s': StoreState, purged: seq<Key>)
    requires q.owner in s.slots ==> s.slots[q.owner].subject != q.subject
    requires s'.slots == s.slots[q.owner := Slot(q.subject, "", q.now)]
    requires s'.dbs == if q.owner in s.slots then WithoutSubject(s.dbs, s.slots[q.owner].subject) else s.dbs
    requires purged == if q.owner in s.slots then LiveKeys(s.dbs, s.slots[q.owner].subject) else []
    ensures ClaimStep(s, q) == (s', Claimed(Slot(q.subject, "", q.now), Lookup(s.slots, q.owner), purged))
  {}

  lemma Overwrite(m: map<Key, Record>, k: Key, a: Record, b: Record)
    ensures m[k := a][k := b] == m[k := b]
  {}

  lemma LockedOutStep(s: StoreState, q: OpenRequest, id: Bytes)
    requires LockedOut(s, q)
    ensures Step(s, Open(q, id)) == (s, Failed(SlotTaken))
  {}

  class Storage {
    var dbs: map<Key, Database>
    var slots: map<string, Slot>
    /** The calls so far. */
    ghost var run: Run

    ghost predicate Separate()
      reads this`dbs
    {
      forall a, b :: a in dbs && b in dbs && a != b ==> dbs[a] != dbs[b]
    }

    ghost function Records(): map<Key, Record>
      reads this`dbs, dbs.Values
    {
      map k | k in dbs :: dbs[k].Value()
    }

    ghost function Contents(): StoreState
      reads this`dbs, this`slots, dbs.Values
    {
      StoreState(Records(), slots)
    }

    ghost predicate Valid()
      reads this, dbs.Values
    {
      Separate() && IsRun(run) && run.states[0] == EMPTY && Last(run) == Contents()
    }

    /** The call `e` took one step of the state machine, answered with `reply`. */
    twostate predicate Took(e: Event, reply: Reply)
      reads this, dbs.Values
    {
      && Valid() && Legal(old(Contents()), e)
      && Step(old(Contents()), e) == (Contents(), reply)
      && run == Extend(old(run), e, Contents(), reply)
    }

    constructor ()
      ensures Valid() && run == START && fresh(dbs.Values)
    {
      dbs, slots, run := map[], map[], START;
      new;
      assert Contents() == EMPTY;
    }

    /** Adds the call to the run. */
    ghost method Note(e: Event, reply: Reply)
      requires IsRun(run) && run.states[0] == EMPTY && Separate()
      requires Legal(Last(run), e) && Step(Last(run), e) == (Contents(), reply)
      modifies this`run
      ensures Contents() == old(Contents())
      ensures Valid() && run == Extend(old(run), e, Contents(), reply)
    {
      ExtendRun(run, e, Contents(), reply);
      run := Extend(run, e, Contents(), reply);
    }

    /** Only the database of `k` changed. */
    twostate lemma OnlyAt(k: Key)
      requires dbs == old(dbs) && k in dbs
      requires forall k' :: k' in dbs && k' != k ==> dbs[k'].Value() == old(dbs[k'].Value())
      ensures Records() == old(Records())[k := dbs[k].Value()]
    {}

    method Renew(k: Key, epoch: u64, now: int, ttl: int) returns (reply: Reply)
      requires Valid()
      modifies this, dbs.Values
      ensures Took(Memory.Renew(k, epoch, now, ttl), reply) && dbs == old(dbs)
    {
      ghost var e, s := Memory.Renew(k, epoch, now, ttl), Contents();
      if k !in dbs {
        reply := Failed(NotFound);
        Unchanged(s, e, reply);
      } else if dbs[k].holder.None? || dbs[k].lease.epoch != epoch {
        reply := Failed(Fenced);
        Unchanged(s, e, reply);
      } else {
        dbs[k].expiresAt := now + ttl;
        reply := Done;
        OnlyAt(k);
        OneRecord(s, e, Contents(), Some(dbs[k].Value()), reply);
      }
      Note(e, reply);
    }

    method Release(k: Key, epoch: u64) returns (reply: Reply)
      requires Valid()
      modifies this, dbs.Values
      ensures Took(Memory.Release(k, epoch), reply) && dbs == old(dbs)
    {
      ghost var e, s := Memory.Release(k, epoch), Contents();
      if k !in dbs {
        reply := Failed(NotFound);
        Unchanged(s, e, reply);
      } else if dbs[k].holder.None? || dbs[k].lease.epoch != epoch {
        reply := Failed(Fenced);
        Unchanged(s, e, reply);
      } else {
        dbs[k].holder := None;
        reply := Done;
        OnlyAt(k);
        OneRecord(s, e, Contents(), Some(dbs[k].Value()), reply);
      }
      Note(e, reply);
    }

    method Create(k: Key, pageSize: u32)
      requires Separate() && k !in dbs
      modifies this`dbs
      ensures k in dbs && Separate() && fresh(dbs.Values - old(dbs.Values))
      ensures dbs[k].Value() == Fresh(pageSize) && Records() == old(Records())[k := Fresh(pageSize)]
    {
      var db := new Database(pageSize);
      dbs := dbs[k := db];
      assert Records() == old(Records())[k := Fresh(pageSize)];
    }

    /** The first half of Open: finds, creates or revives the database. */
    method FindOrCreate(q: OpenRequest) returns (err: Option<Error>)
      requires Separate()
      modifies this`dbs, dbs.Values
      ensures Separate() && fresh(dbs.Values - old(dbs.Values))
      ensures match Prepare(Lookup(old(Records()), q.key), q)
              case Refused(why) => err == Some(why) && Records() == old(Records())
              case Ready(db) => err.None? && q.key in dbs && dbs[q.key].Value() == db &&
                                Records() == old(Records())[q.key := db]
    {
      var ok := q.key in dbs;
      if ok && dbs[q.key].deleted {
        if q.resume.Some? { return Some(Fenced); }
        if !q.create { return Some(NotFound); }
        if !ValidPageSize(q.pageSize) { return Some(PageSizeInvalid(q.pageSize)); }
        dbs[q.key].deleted := false;
        dbs[q.key].state := dbs[q.key].state.(pageSize := q.pageSize);
        OnlyAt(q.key);
      } else if !ok && (!q.create || q.resume.Some?) {
        return Some(NotFound);
      } else if !ok {
        if !ValidPageSize(q.pageSize) { return Some(PageSizeInvalid(q.pageSize)); }
        Create(q.key, q.pageSize);
      } else if q.pageSize != 0 && q.pageSize != dbs[q.key].state.pageSize {
        return Some(PageSizeDiffers(q.pageSize, dbs[q.key].state.pageSize));
      } else {
        assert old(Records())[q.key := dbs[q.key].Value()] == old(Records());
      }
      return None;
    }

    /** Open after the slot check. */
    method OpenUnlocked(q: OpenRequest, id: Bytes) returns (reply: Reply)
      requires Separate()
      modifies this`dbs, dbs.Values
      ensures Separate() && fresh(dbs.Values - old(dbs.Values))
      ensures OpenRecord(Lookup(old(Records()), q.key), q, id) == (Lookup(Records(), q.key), reply)
      ensures Records() == Put(old(Records()), q.key, Lookup(Records(), q.key))
    {
      ghost var view := Records();
      var err := FindOrCreate(q);
      if err.Some? {
        assert Put(view, q.key, Lookup(view, q.key)) == view;
        return Failed(err.value);
      }
      label prepared:
      ghost var prepared := Records();
      reply := dbs[q.key].TakeLease(q, id);
      OnlyAt@prepared(q.key);
      Overwrite(view, q.key, prepared[q.key], dbs[q.key].Value());
    }

    method Open(q: OpenRequest, id: Bytes) returns (reply: Reply)
      requires Valid()
      modifies this, dbs.Values
      ensures Took(Memory.Open(q, id), reply) && fresh(dbs.Values - old(dbs.Values))
    {
      ghost var e, s := Memory.Open(q, id), Contents();
      if q.owner != "" && q.owner in slots && slots[q.owner].subject != q.key.subject {
        reply := Failed(SlotTaken);
        LockedOutStep(s, q, id);
      } else {
        reply := OpenUnlocked(q, id);
        OneRecord(s, e, Contents(), Lookup(Records(), q.key), reply);
      }
      Note(e, reply);
    }

    method Fetch(k: Key, version: u64, first: u64, count: u64) returns (reply: Reply)
      requires Valid()
      modifies this`run
      ensures Took(Memory.Fetch(k, version, first, count), reply)
    {
      ghost var e, s := Memory.Fetch(k, version, first, count), Contents();
      if k !in dbs || dbs[k].deleted {
        reply := Failed(NotFound);
      } else if version != dbs[k].state.version {
        reply := Failed(VersionConflict(dbs[k].state.version));
      } else {
        var err := CheckRange(first, count, dbs[k].state.pageCount);
        if err.Some? {
          reply := Failed(err.value);
        } else {
          var blocks := dbs[k].ReadBlocks(first, count);
          reply := Pages(blocks);
        }
      }
      Unchanged(s, e, reply);
      Note(e, reply);
    }

    method Commit(q: CommitRequest) returns (reply: Reply)
      requires Valid()
      modifies this`run, dbs.Values
      ensures Took(Memory.Commit(q), reply)
    {
      ghost var e, s := Memory.Commit(q), Contents();
      if q.key !in dbs {
        reply := Failed(NotFound);
        Unchanged(s, e, reply);
      } else {
        var db := dbs[q.key];
        ghost var was := db.Value();
        reply := CommitTo(db, q);
        OnlyAt(q.key);
        OneRecord(s, e, Contents(), CommitRecord(Some(was), q).0, reply);
      }
      Note(e, reply);
    }

    /** Commit on the database found. */
    static method CommitTo(db: Database, q: CommitRequest) returns (reply: Reply)
      modifies db
      ensures CommitRecord(Some(old(db.Value())), q) == (Some(db.Value()), reply)
    {
      if db.holder.None? || db.lease.epoch != q.leaseEpoch { return Failed(Fenced); }
      if db.state.version == Inc(q.baseVersion) && |q.commitID| > 0 && db.state.lastCommitID == q.commitID {
        db.expiresAt := q.now + q.ttl;
        return Committed(db.state.version);
      }
      if db.state.version != q.baseVersion { return Failed(VersionConflict(db.state.version)); }
      var err := ValidateCommit(db.state.pageSize, q);
      if err.Some? { return Failed(err.value); }
      db.Commit(q);
      return Committed(db.state.version);
    }

    method Changes(k: Key, from: u64) returns (reply: Reply)
      requires Valid()
      modifies this`run
      ensures Took(Memory.Changes(k, from), reply)
    {
      ghost var e, s := Memory.Changes(k, from), Contents();
      if k !in dbs || dbs[k].deleted {
        reply := Failed(NotFound);
      } else {
        reply := ChangesOf(dbs[k], from);
      }
      Unchanged(s, e, reply);
      Note(e, reply);
    }

    static method ChangesOf(db: Database, from: u64) returns (reply: Reply)
      requires !db.deleted
      ensures reply == ChangesRecord(Some(db.Value()), from)
    {
      var version := db.state.version;
      if from > version { return Failed(VersionAhead(from, version)); }
      if from == version { return Changed(ChangeSet(from, version, [], true)); }
      if |db.changes| == 0 || db.changes[0].version > Inc(from) {
        return Changed(ChangeSet(from, version, [], false));
      }
      var seen := Seen(db.changes, from);
      return Changed(ChangeSet(from, version, seen, true));
    }

    method Delete(q: DeleteRequest) returns (reply: Reply)
      requires Valid()
      modifies this`run, dbs.Values
      ensures Took(Memory.Delete(q), reply)
    {
      ghost var e, s := Memory.Delete(q), Contents();
      if q.key !in dbs {
        reply := Deleted(0, false);
        Unchanged(s, e, reply);
      } else {
        var db := dbs[q.key];
        ghost var was := db.Value();
        reply := DeleteOf(db, q);
        OnlyAt(q.key);
        OneRecord(s, e, Contents(), DeleteRecord(Some(was), q).0, reply);
      }
      Note(e, reply);
    }

    /** Delete on the database found. */
    static method DeleteOf(db: Database, q: DeleteRequest) returns (reply: Reply)
      modifies db
      ensures DeleteRecord(Some(old(db.Value())), q) == (Some(db.Value()), reply)
    {
      if db.deleted { return Deleted(0, false); }
      var active := db.holder.Some? && q.now < db.expiresAt;
      if active && !q.takeover { return Failed(LeaseHeld(db.grantedAt)); }
      db.Remove();
      return Deleted(db.lease.epoch, active);
    }

    // ---- slots ----

    method GetSlot(owner: string) returns (reply: Reply)
      requires Valid()
      modifies this`run
      ensures Took(Memory.GetSlot(owner), reply)
    {
      reply := SlotIs(Lookup(slots, owner));
      Note(Memory.GetSlot(owner), reply);
    }

    twostate lemma WithoutRecords(subject: string)
      requires dbs == map k | k in old(dbs) && k.subject != subject :: old(dbs)[k]
      requires forall d :: d in old(dbs).Values ==> unchanged(d)
      ensures Records() == WithoutSubject(old(Records()), subject)
    {
      forall k | k in dbs ensures dbs[k].Value() == old(Records())[k] { assert dbs[k] in old(dbs).Values; }
    }

    /** The loop of purge. */
    method DropSubject(subject: string) returns (ids: seq<string>)
      modifies this`dbs
      ensures dbs == map k | k in old(dbs) && k.subject != subject :: old(dbs)[k]
      ensures Elements(ids) == LiveIDs(old(Records()), subject)
    {
      ghost var view := Records();
      ids := [];
      var rest := dbs.Keys;
      while rest != {}
        invariant rest <= old(dbs).Keys
        invariant dbs == map k | k in old(dbs) && (k.subject != subject || k in rest) :: old(dbs)[k]
        invariant Elements(ids) == LiveAmong(view, old(dbs).Keys - rest, subject)
        decreases rest
      {
        var k :| k in rest;
        LiveNext(view, old(dbs).Keys - rest, subject, k);
        assert old(dbs).Keys - (rest - {k}) == old(dbs).Keys - rest + {k};
        rest := rest - {k};
        if k.subject == subject {
          if !dbs[k].deleted {
            ElementsAdd(ids, [k.dbid]);
            ids := ids + [k.dbid];
          }
          dbs := dbs - {k};
        }
      }
      assert LiveAmong(view, old(dbs).Keys - rest, subject) == LiveIDs(view, subject);
    }

    /** purge: deletes all databases of a subject and lists those that were live, sorted. */
    method Purge(subject: string) returns (purged: seq<Key>)
      requires Separate()
      modifies this`dbs
      ensures Separate() && dbs.Values <= old(dbs.Values)
      ensures Records() == WithoutSubject(old(Records()), subject)
      ensures purged == LiveKeys(old(Records()), subject)
    {
      var ids := DropSubject(subject);
      purged := SortKeys(ids, subject);
      LiveKeysAre(old(Records()), subject, ids, purged);
      WithoutRecords(subject);
    }

    /** Passes the slot to another key, and purges the databases of the one that had it. */
    method PassSlot(q: ClaimRequest, held: Option<Slot>) returns (reply: Reply)
      requires Separate() && held == Lookup(slots, q.owner) && (held.Some? ==> held.value.subject != q.subject)
      modifies this`dbs, this`slots
      ensures Separate() && dbs.Values <= old(dbs.Values)
      ensures (Contents(), reply) == ClaimStep(old(Contents()), q)
    {
      var purged := PurgeHeld(held);
      var slot := Slot(q.subject, "", q.now);
      slots := slots[q.owner := slot];
      reply := Claimed(slot, held, purged);
      ClaimDone(old(Contents()), q, Contents(), purged);
    }

    /** Purges the databases of the key that holds the slot, if one does. */
    method PurgeHeld(held: Option<Slot>) returns (purged: seq<Key>)
      requires Separate()
      modifies this`dbs
      ensures Separate() && dbs.Values <= old(dbs.Values)
      ensures Records() == if held.Some? then WithoutSubject(old(Records()), held.value.subject) else old(Records())
      ensures purged == if held.Some? then LiveKeys(old(Records()), held.value.subject) else []
    {
      purged := [];
      if held.Some? { purged := Purge(held.value.subject); }
    }

    method ClaimSlot(q: ClaimRequest) returns (reply: Reply)
      requires Valid()
      modifies this
      ensures Took(Memory.ClaimSlot(q), reply) && dbs.Values <= old(dbs.Values)
    {
      var held := Lookup(slots, q.owner);
      if held.Some? && held.value.subject == q.subject {
        reply := Claimed(held.value, None, []);
      } else {
        reply := PassSlot(q, held);
      }
      Note(Memory.ClaimSlot(q), reply);
    }

    method SetSlotLabel(owner: string, subject: string, text: string) returns (reply: Reply)
      requires Valid()
      modifies this`slots, this`run
      ensures Took(Memory.SetSlotLabel(owner, subject, text), reply)
    {
      if owner !in slots {
        reply := Failed(NotFound);
      } else if slots[owner].subject != subject {
        reply := Failed(SlotTaken);
      } else {
        var slot := slots[owner].(labelText := text);
        slots := slots[owner := slot];
        reply := Claimed(slot, None, []);
      }
      Note(Memory.SetSlotLabel(owner, subject, text), reply);
    }

    method DeleteSlot(owner: string, subject: string) returns (reply: Reply)
      requires Valid()
      modifies this
      ensures Took(Memory.DeleteSlot(owner, subject), reply) && dbs.Values <= old(dbs.Values)
    {
      if owner in slots && slots[owner].subject != subject {
        reply := Failed(SlotTaken);
      } else {
        ghost var s := Contents();
        slots := slots - {owner};
        assert Records() == s.dbs;
        var purged := Purge(subject);
        reply := Keys(purged);
        assert Contents().dbs == WithoutSubject(s.dbs, subject) && Contents().slots == s.slots - {owner};
        DeleteSlotDone(s, owner, subject, Contents(), purged);
      }
      Note(Memory.DeleteSlot(owner, subject), reply);
    }

    // ---- DeleteUnused ----

    /** The candidates, in the order in which the map is read. */
    method FindUnused(cutoff: int) returns (unused: seq<Key>)
      ensures Distinct(unused) && forall k :: k in unused <==> Unused(Contents(), cutoff, k)
    {
      unused := [];
      var rest := dbs.Keys;
      while rest != {}
        invariant rest <= dbs.Keys && Distinct(unused)
        invariant forall k :: k in unused <==> k in dbs && k !in rest && !dbs[k].deleted && dbs[k].expiresAt < cutoff
        decreases rest
      {
        var k :| k in rest;
        rest := rest - {k};
        if !dbs[k].deleted && dbs[k].expiresAt < cutoff { unused := unused + [k]; }
      }
    }

    /** slotHolders: the subjects that hold a slot. */
    method SlotHolders() returns (holders: set<string>)
      ensures forall x :: x in holders <==> HoldsSlot(slots, x)
    {
      holders := {};
      var rest := slots.Keys;
      while rest != {}
        invariant rest <= slots.Keys
        invariant forall x :: x in holders <==> exists o :: o in slots && o !in rest && slots[o].subject == x
        decreases rest
      {
        var o :| o in rest;
        rest := rest - {o};
        holders := holders + {slots[o].subject};
      }
    }

    /** Removes one database, without a record if its subject holds a slot. */
    method RemoveOne(k: Key, holders: set<string>)
      requires Separate() && k in dbs && (k.subject in holders <==> HoldsSlot(slots, k.subject))
      modifies this`dbs, dbs.Values
      ensures Separate() && dbs.Values <= old(dbs.Values) && dbs.Keys >= old(dbs.Keys) - {k}
      ensures Contents() == SweepOne(old(Contents()), k)
    {
      if k.subject in holders {
        dbs := dbs - {k};
        assert Records() == old(Records()) - {k};
      } else {
        dbs[k].Remove();
        OnlyAt(k);
      }
    }

    method RemoveChosen(chosen: seq<Key>, holders: set<string>)
      requires Separate() && Distinct(chosen) && forall k :: k in chosen ==> k in dbs
      requires forall x :: x in holders <==> HoldsSlot(slots, x)
      modifies this`dbs, dbs.Values
      ensures Separate() && dbs.Values <= old(dbs.Values)
      ensures Contents() == SweepAll(old(Contents()), chosen)
    {
      ghost var s := Contents();
      var n := 0;
      while n < |chosen|
        invariant n <= |chosen| && Separate() && dbs.Values <= old(dbs.Values)
        invariant Contents() == SweepAll(s, chosen[..n])
      {
        SweepNext(s, chosen, n);
        assert chosen[n] in Contents().dbs;
        RemoveOne(chosen[n], holders);
        n := n + 1;
      }
      assert chosen[..n] == chosen;
    }

    method RemoveAll(chosen: seq<Key>)
      requires Separate() && Distinct(chosen) && forall k :: k in chosen ==> k in dbs
      modifies this`dbs, dbs.Values
      ensures Separate() && dbs.Values <= old(dbs.Values)
      ensures Records() == SweepDbs(old(Contents()), chosen)
    {
      ghost var s := Contents();
      var holders := SlotHolders();
      RemoveChosen(chosen, holders);
      assert Contents().dbs == SweepDbs(s, chosen) by { SweepAllIsSweepDbs(s, chosen); }
    }

    /** hasDatabases */
    method HasLive(subject: string) returns (has: bool)
      ensures has == HasDatabases(Records(), subject)
    {
      var rest := dbs.Keys;
      while rest != {}
        invariant rest <= dbs.Keys
        invariant forall k :: k in dbs && k !in rest ==> !(k.subject == subject && !dbs[k].deleted)
        decreases rest
      {
        var k :| k in rest;
        rest := rest - {k};
        if k.subject == subject && !dbs[k].deleted {
          assert !Records()[k].deleted;
          return true;
        }
      }
      return false;
    }

    method ReleaseSlots(cutoff: int)
      modifies this`slots
      ensures slots == KeptSlots(old(slots), Records(), cutoff)
    {
      var rest := slots.Keys;
      while rest != {}
        invariant rest <= old(slots).Keys
        invariant slots == map o | o in old(slots) &&
                      (o in rest || !(old(slots)[o].claimedAt < cutoff && !HasDatabases(Records(), old(slots)[o].subject)))
                      :: old(slots)[o]
        decreases rest
      {
        var o :| o in rest;
        rest := rest - {o};
        if slots[o].claimedAt < cutoff {
          var has := HasLive(slots[o].subject);
          if !has { slots := slots - {o}; }
        }
      }
    }

    method ChooseUnused(cutoff: int, limit: nat) returns (chosen: seq<Key>)
      ensures OldestUnused(Contents(), cutoff, limit, chosen)
    {
      var unused := FindUnused(cutoff);
      var expiry := map k | k in dbs :: dbs[k].expiresAt;
      var sorted := SortByRank(unused, expiry);
      chosen := if |sorted| > limit then sorted[..limit] else sorted;
      OldestFirst(Contents(), cutoff, limit, sorted, chosen);
    }

    method SweepChosen(cutoff: int, chosen: seq<Key>)
      requires Separate() && Distinct(chosen) && forall k :: k in chosen ==> k in dbs
      modifies this`dbs, this`slots, dbs.Values
      ensures Separate() && dbs.Values <= old(dbs.Values)
      ensures Contents() == SweepStep(old(Contents()), cutoff, chosen)
    {
      ghost var s := Contents();
      RemoveAll(chosen);
      ghost var swept := Records();
      ReleaseSlots(cutoff);
      assert Records() == swept && slots == KeptSlots(s.slots, swept, cutoff);
    }

    method DeleteUnused(cutoff: int, limit: nat) returns (reply: Reply)
      requires Valid()
      modifies this, dbs.Values
      ensures reply.Keys? && Took(Memory.DeleteUnused(cutoff, limit, reply.keys), reply)
      ensures dbs.Values <= old(dbs.Values)
    {
      ghost var s := Contents();
      var chosen := ChooseUnused(cutoff, limit);
      SweepChosen(cutoff, chosen);
      reply := Keys(chosen);
      SweepDone(s, cutoff, limit, chosen, Contents());
      Note(Memory.DeleteUnused(cutoff, limit, chosen), reply);
    }
  }

  lemma SweepDone(s: StoreState, cutoff: int, limit: nat, chosen: seq<Key>, s': StoreState)
    requires OldestUnused(s, cutoff, limit, chosen) && s' == SweepStep(s, cutoff, chosen)
    ensures Legal(s, DeleteUnused(cutoff, limit, chosen))
    ensures Step(s, DeleteUnused(cutoff, limit, chosen)) == (s', Keys(chosen))
  {}

  lemma SweepNext(s: StoreState, chosen: seq<Key>, n: nat)
    requires n < |chosen| && Distinct(chosen) && forall k :: k in chosen ==> k in s.dbs
    ensures SweepAll(s, chosen[..n + 1]) == SweepOne(SweepAll(s, chosen[..n]), chosen[n])
  {
    assert chosen[..n + 1][..n] == chosen[..n];
  }

  /** The first `limit` of all unused databases, sorted by expiry, are the oldest. */
  lemma OldestFirst(s: StoreState, cutoff: int, limit: nat, sorted: seq<Key>, chosen: seq<Key>)
    requires Distinct(sorted) && (forall k :: Unused(s, cutoff, k) ==> k in sorted)
    requires forall i :: 0 <= i < |sorted| ==> sorted[i] in s.dbs && Unused(s, cutoff, sorted[i])
    requires forall i, j :: 0 <= i < j < |sorted| ==> s.dbs[sorted[i]].expiresAt <= s.dbs[sorted[j]].expiresAt
    requires chosen == if |sorted| > limit then sorted[..limit] else sorted
    ensures OldestUnused(s, cutoff, limit, chosen)
  {
    forall c, k | c in chosen && Unused(s, cutoff, k) && k !in chosen
      ensures c in s.dbs && s.dbs[c].expiresAt <= s.dbs[k].expiresAt
    {
      var i :| 0 <= i < |chosen| && chosen[i] == c;
      var j :| 0 <= j < |sorted| && sorted[j] == k;
      assert sorted[i] == c && |chosen| <= j;
    }
  }
}
