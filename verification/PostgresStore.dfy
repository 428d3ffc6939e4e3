/** internal/store/postgres/postgres.go in its own form: methods that run statements on the tables, with the loops that
    fill parameter lists and buffers. A method works on a copy of the tables, its transaction, and assigns it back when
    the transaction commits. Every method is proved to answer as the memory store would. */
module PostgresStore {
  import opened Basics
  import opened Store
  import opened BlockParts
  import opened Tables
  import opened Postgres
  import opened Memory
  import opened MemoryStore
  import opened Runs
  import opened Relation
  import opened Simulation

  // ---- loops over values ----

  /** putBlocks for one block: one upsert per part. */
  method PutEach(parts: Parts, k: Key, idx: i64, data: Bytes) returns (r: Parts)
    ensures r == PutBlock(parts, k, idx, data)
  {
    r := parts;
    var at := 0;
    ghost var n := 0;
    while at < |data|
      invariant at == n * PART && n <= PartCount(data) && (at < |data| ==> n < PartCount(data))
      invariant r == PutParts(parts, k, idx, data, n)
      decreases |data| - at
    {
      r := r[PartID(k, idx, at / PART) := data[at..Min(at + PART, |data|)]];
      at := at + PART;
      n := n + 1;
    }
  }

  method PutAll(parts: Parts, k: Key, blocks: seq<Block>) returns (r: Parts)
    ensures r == PutBlocks(parts, k, blocks)
  {
    r := parts;
    var n := 0;
    while n < |blocks|
      invariant n <= |blocks| && r == PutBlocks(parts, k, blocks[..n])
    {
      assert blocks[..n + 1][..n] == blocks[..n];
      r := PutEach(r, k, ToInt64(blocks[n].index), blocks[n].data);
      n := n + 1;
    }
    assert blocks[..n] == blocks;
  }

  lemma TouchedNext(blocks: seq<Block>, n: nat)
    requires n < |blocks|
    ensures (set b | b in blocks[..n + 1] :: ToInt64(b.index))
            == (set b | b in blocks[..n] :: ToInt64(b.index)) + {ToInt64(blocks[n].index)}
  {
    assert blocks[..n + 1] == blocks[..n] + [blocks[n]];
  }

  /** recordChange: the sorted indexes. */
  method TouchedRows(blocks: seq<Block>) returns (touched: seq<i64>)
    ensures touched == SortedTouched(blocks)
  {
    touched := [];
    var n := 0;
    while n < |blocks|
      invariant n <= |blocks| && Elements(touched) == set b | b in blocks[..n] :: ToInt64(b.index)
    {
      TouchedNext(blocks, n);
      ElementsAdd(touched, [ToInt64(blocks[n].index)]);
      touched := touched + [ToInt64(blocks[n].index)];
      n := n + 1;
    }
    assert blocks[..n] == blocks;
    SmallerOrder();
    touched := Sort(touched, Smaller);
  }

  /** Every part lies inside a page, and none reaches into the next. */
  predicate PartsFit(rows: Parts, pageSize: u32) {
    forall id :: id in rows ==> 0 <= id.part && id.part * PART <= pageSize && |rows[id]| <= PART
  }

  /** Every part that a fetch of the range selects starts inside its block. If one does not, the copy fails. */
  predicate CopiesFit(t: Tables, k: Key, first: u64, count: u64) {
    k in t.databases && first + count <= MAX64 ==>
      forall id :: id in FetchBlocks(t.blocks, k, ToInt64(first), ToInt64(first + count)) ==>
        id.part * PART <= t.databases[k].pageSize
  }

  /** That is so in tables that represent a state of the memory store. */
  lemma RelatedCopiesFit(t: Tables, k: Key, db: Record, first: u64, count: u64)
    requires RelKey(t, k, db) && Good(db)
    ensures CopiesFit(t, k, first, count)
  {
    if first + count <= MAX64 {
      var rows := FetchBlocks(t.blocks, k, ToInt64(first), ToInt64(first + count));
      forall id | id in rows ensures id.part * PART <= db.state.pageSize {
        PartLength(db.blocks[id.idx], id.part);
      }
    }
  }

  // ---- no part is longer than it may be ----

  /** Parts have numbers from 0 on and at most PART bytes. */
  ghost predicate SmallParts(parts: Parts) {
    forall id :: id in parts ==> 0 <= id.part && |parts[id]| <= PART
  }

  lemma PutBlockSmall(parts: Parts, k: Key, idx: i64, data: Bytes)
    requires SmallParts(parts)
    ensures SmallParts(PutBlock(parts, k, idx, data))
  {
    var after := PutBlock(parts, k, idx, data);
    forall id | id in after ensures 0 <= id.part && |after[id]| <= PART {
      PutPartsAt(parts, k, idx, data, PartCount(data), id);
      if id.key == k && id.idx == idx && 0 <= id.part < PartCount(data) { PartLength(data, id.part); }
    }
  }

  lemma {:induction false} PutBlocksSmall(parts: Parts, k: Key, blocks: seq<Block>)
    requires SmallParts(parts)
    ensures SmallParts(PutBlocks(parts, k, blocks))
  {
    if blocks != [] {
      var init, last := blocks[..|blocks| - 1], blocks[|blocks| - 1];
      PutBlocksSmall(parts, k, init);
      PutBlockSmall(PutBlocks(parts, k, init), k, ToInt64(last.index), last.data);
    }
  }

  lemma {:induction false} SweepRowsSmall(t: Tables, cutoff: int, chosen: seq<Key>)
    requires SmallParts(t.blocks)
    ensures SmallParts(SweepRows(t, cutoff, chosen).0.blocks)
  {
    if chosen != [] { SweepRowsSmall(t, cutoff, chosen[..|chosen| - 1]); }
  }

  lemma StepSmall(t: Tables, e: Event)
    requires SmallParts(t.blocks)
    ensures SmallParts(PgStep(t, e).0.blocks)
  {
    match e
    case Commit(q) => PutBlocksSmall(t.blocks, q.key, q.blocks);
    case DeleteUnused(cutoff, _, chosen) => SweepRowsSmall(t, cutoff, chosen);
    case _ =>
  }

  lemma {:induction false} HistorySmall(pg: PgRun, i: nat)
    requires PgHistory(pg) && i <= |pg.events|
    ensures SmallParts(pg.tables[i].blocks)
  {
    if i > 0 {
      HistorySmall(pg, i - 1);
      PgStepAt(pg, i - 1);
      StepSmall(pg.tables[i - 1], pg.events[i - 1]);
    }
  }

  // ---- copying ----

  /** A selected row belongs to a block of the range. */
  lemma SelectedIndex(first: u64, count: u64, idx: i64)
    requires first + count <= MAX64 && ToInt64(first) <= idx < ToInt64(first + count)
    ensures first <= ToUint64(idx) < first + count
  {
  }

  /** The rows that are not left. */
  function Read(rows: Parts, left: set<PartID>): Parts {
    map id | id in rows.Keys - left :: rows[id]
  }

  /** What the first rows, already copied, leave in the buffer of block `idx`. */
  function Copied(rows: Parts, left: set<PartID>, k: Key, idx: i64, pageSize: u32): (r: Bytes)
    ensures |r| == pageSize
  {
    ReadBack(Read(rows, left), k, idx, pageSize)
  }

  lemma CopyOne(rows: Parts, left: set<PartID>, id: PartID, k: Key, idx: i64, pageSize: u32)
    requires PartsFit(rows, pageSize) && id in left && id in rows && id.key == k
    ensures Copied(rows, left - {id}, k, idx, pageSize)
            == if id.idx == idx then Overlay(Copied(rows, left, k, idx, pageSize), id.part * PART, rows[id])
               else Copied(rows, left, k, idx, pageSize)
  {
    var a, b := Copied(rows, left - {id}, k, idx, pageSize), Copied(rows, left, k, idx, pageSize);
    forall o | 0 <= o < pageSize
      ensures a[o] == if id.idx == idx && id.part * PART <= o < id.part * PART + |rows[id]|
                      then rows[id][o - id.part * PART] else b[o]
    {
      CopyByte(rows, left, id, k, idx, o);
    }
  }

  /** The offset `o` lies in part `o / PART` and in no other. */
  lemma CopyByte(rows: Parts, left: set<PartID>, id: PartID, k: Key, idx: i64, o: nat)
    requires id in left && id in rows && id.key == k && 0 <= id.part && |rows[id]| <= PART
    ensures PartID(k, idx, o / PART) == id <==> id.idx == idx && id.part * PART <= o < id.part * PART + PART
    ensures PartID(k, idx, o / PART) == id ==> o % PART == o - id.part * PART
  {}

  function Buffers(rows: Parts, left: set<PartID>, k: Key, first: u64, count: u64, pageSize: u32): (r: seq<Bytes>)
    requires first + count <= MAX64
    ensures |r| == count && forall i :: 0 <= i < count ==> |r[i]| == pageSize
  {
    var r := seq(count, i requires 0 <= i < count => Copied(rows, left, k, ToInt64(first + i), pageSize));
    assert forall i :: 0 <= i < count ==> r[i] == Copied(rows, left, k, ToInt64(first + i), pageSize);
    r
  }

  lemma CopyStep(rows: Parts, left: set<PartID>, id: PartID, k: Key, first: u64, count: u64, pageSize: u32)
    requires first + count <= MAX64 && PartsFit(rows, pageSize)
    requires id in left && id in rows && id.key == k && first <= ToUint64(id.idx) < first + count
    ensures var b, n := Buffers(rows, left, k, first, count, pageSize), ToUint64(id.idx) - first;
            Buffers(rows, left - {id}, k, first, count, pageSize)
            == b[n := Overlay(b[n], id.part * PART, rows[id])]
  {
    forall i | 0 <= i < count
      ensures Buffers(rows, left - {id}, k, first, count, pageSize)[i]
              == Copied(rows, left - {id}, k, ToInt64(first + i), pageSize)
      ensures Copied(rows, left - {id}, k, ToInt64(first + i), pageSize)
              == if ToUint64(id.idx) == first + i
                 then Overlay(Copied(rows, left, k, ToInt64(first + i), pageSize), id.part * PART, rows[id])
                 else Copied(rows, left, k, ToInt64(first + i), pageSize)
    {
      CopyOne(rows, left, id, k, ToInt64(first + i), pageSize);
    }
  }

  lemma BuffersEmpty(rows: Parts, k: Key, first: u64, count: u64, pageSize: u32)
    requires first + count <= MAX64
    ensures Buffers(rows, rows.Keys, k, first, count, pageSize) == seq(count, i => Memory.Zeros(pageSize))
  {
    var b, z := Buffers(rows, rows.Keys, k, first, count, pageSize), seq(count, i => Memory.Zeros(pageSize));
    assert Read(rows, rows.Keys) == map[];
    forall i | 0 <= i < count ensures b[i] == z[i] {
      assert b[i] == Copied(rows, rows.Keys, k, ToInt64(first + i), pageSize) == Memory.Zeros(pageSize);
    }
  }

  lemma BuffersFull(rows: Parts, k: Key, first: u64, count: u64, pageSize: u32)
    requires first + count <= MAX64
    ensures Buffers(rows, {}, k, first, count, pageSize)
            == seq(count, i requires 0 <= i < count => ReadBack(rows, k, ToInt64(first + i), pageSize))
  {
    var b := Buffers(rows, {}, k, first, count, pageSize);
    var r := seq(count, i requires 0 <= i < count => ReadBack(rows, k, ToInt64(first + i), pageSize));
    assert Read(rows, {}) == rows;
    forall i | 0 <= i < count ensures b[i] == r[i] {
      assert b[i] == Copied(rows, {}, k, ToInt64(first + i), pageSize);
      assert r[i] == ReadBack(rows, k, ToInt64(first + i), pageSize);
    }
  }

  /** The loop of Fetch that fills the buffers, whatever the order of the rows. */
  method CopyRows(rows: Parts, k: Key, first: u64, count: u64, pageSize: u32) returns (blocks: seq<Bytes>)
    requires first + count <= MAX64 && PartsFit(rows, pageSize)
    requires forall id :: id in rows ==> id.key == k && first <= ToUint64(id.idx) < first + count
    ensures blocks == seq(count, i requires 0 <= i < count => ReadBack(rows, k, ToInt64(first + i), pageSize))
  {
    blocks := seq(count, i => Memory.Zeros(pageSize));
    var left := rows.Keys;
    BuffersEmpty(rows, k, first, count, pageSize);
    while left != {}
      invariant left <= rows.Keys && blocks == Buffers(rows, left, k, first, count, pageSize)
      decreases left
    {
      var id :| id in left;
      CopyStep(rows, left, id, k, first, count, pageSize);
      var n := ToUint64(id.idx) - first;
      blocks := blocks[n := Overlay(blocks[n], id.part * PART, rows[id])];
      left := left - {id};
    }
    BuffersFull(rows, k, first, count, pageSize);
  }

  lemma ChangedNext(log: Log, left: set<ChangeID>, id: ChangeID, k: Key, version: i64)
    requires id in left && id in log && id.key == k && id.version > version
    ensures ChangedAmong(log, left - {id}, k, version) == ChangedAmong(log, left, k, version) + Elements(log[id])
  {
    forall x | x in Elements(log[id]) ensures x in ChangedAmong(log, left - {id}, k, version) {
      var n :| 0 <= n < |log[id]| && log[id][n] == x;
    }
  }

  /** The indexes in the rows of ChangedSince that are not left to be read. */
  function ChangedAmong(log: Log, left: set<ChangeID>, k: Key, version: i64): set<i64> {
    set id, n | id in log && id !in left && id.key == k && id.version > version && 0 <= n < |log[id]| :: log[id][n]
  }

  /** Changes: collects the indexes of the rows after `from`. */
  method SeenRows(log: Log, k: Key, from: u64) returns (sorted: seq<u64>)
    ensures sorted == SortedIndexes(set i | i in ChangedSince(log, k, ToInt64(from)) :: ToUint64(i))
  {
    var since := ToInt64(from);
    var left := set id | id in log && id.key == k && id.version > since;
    var seen: seq<i64> := [];
    while left != {}
      invariant forall id :: id in left ==> id in log && id.key == k && id.version > since
      invariant Elements(seen) == ChangedAmong(log, left, k, since)
      decreases left
    {
      var id :| id in left;
      ChangedNext(log, left, id, k, since);
      ElementsAdd(seen, log[id]);
      seen := seen + log[id];
      left := left - {id};
    }
    var indexes: seq<u64> := seq(|seen|, n requires 0 <= n < |seen| => ToUint64(seen[n]));
    forall x ensures x in Elements(indexes) <==> x in (set i | i in Elements(seen) :: ToUint64(i)) {
      if x in Elements(indexes) {
        var n :| 0 <= n < |indexes| && indexes[n] == x;
        assert seen[n] in Elements(seen);
      }
      if x in (set i | i in Elements(seen) :: ToUint64(i)) {
        var i :| i in Elements(seen) && ToUint64(i) == x;
        var n :| 0 <= n < |seen| && seen[n] == i;
        assert indexes[n] == x;
      }
    }
    assert Elements(indexes) == set i | i in Elements(seen) :: ToUint64(i);
    assert ChangedAmong(log, {}, k, since) == ChangedSince(log, k, since);
    Orders();
    sorted := Sort(indexes, Below);
  }

  /** recordChange */
  method RecordTx(log: Log, k: Key, version: u64, blocks: seq<Block>) returns (r: Log)
    ensures r == RecordAndPrune(log, k, version, blocks)
  {
    var touched := TouchedRows(blocks);
    r := RecordChange(log, k, ToInt64(version), touched);
    if version > CHANGE_WINDOW { r := PruneChanges(r, k, ToInt64(version - CHANGE_WINDOW)); }
  }

  /** The statements of an applied commit. */
  method ApplyTx(t: Tables, q: CommitRequest) returns (tx: Tables)
    requires q.key in t.databases && t.databases[q.key].version < MAX63
    ensures tx == PgApply(t, q)
  {
    var parts := PutAll(t.blocks, q.key, q.blocks);
    parts := DeleteBlocksFrom(parts, q.key, ToInt64(q.pageCount));
    var row := ApplyCommit(t.databases[q.key], ToInt64(q.pageCount), q.commitID, q.now + q.ttl);
    var version := ToUint64(row.version);
    var log := RecordTx(t.changes, q.key, version, q.blocks);
    tx := Tables(t.databases[q.key := row], parts, log, t.slots);
  }

  /** The version that the OldestChange statement selects. */
  method Oldest(log: Log, k: Key) returns (oldest: i64)
    ensures oldest == OldestChange(log, k)
  {
    var left := VersionsOf(log, k);
    if left == {} { return 0; }
    oldest :| oldest in left;
    left := left - {oldest};
    while left != {}
      invariant left <= VersionsOf(log, k) && oldest in VersionsOf(log, k)
      invariant forall v :: v in VersionsOf(log, k) && v !in left ==> oldest <= v
      decreases left
    {
      var v :| v in left;
      left := left - {v};
      if v < oldest { oldest := v; }
    }
    OldestIsLeast(log, k, oldest);
  }

  lemma OldestIsLeast(log: Log, k: Key, oldest: i64)
    requires oldest in VersionsOf(log, k) && forall v :: v in VersionsOf(log, k) ==> oldest <= v
    ensures oldest == OldestChange(log, k)
  {
    SmallerOrder();
    var least := Least(VersionsOf(log, k), Smaller);
    assert least in VersionsOf(log, k) && (oldest == least || Smaller(least, oldest));
  }

  // ---- the store ----

  class PgStorage {
    var tables: Tables
    /** The calls so far, and the run of the memory store with the same calls. */
    ghost var pg: PgRun
    ghost var run: Run

    /** As long as the calls fit the columns, the memory store has made the same run, with the same answers, and the
        tables represent its state. */
    ghost predicate Valid()
      reads this
    {
      PgHistory(pg) && tables == pg.tables[|pg.events|] && (Small(pg) ==> Shadows(run, pg))
    }

    /** The call `e` was answered with `reply`, as the memory store answers it. */
    twostate predicate Took(e: Event, new reply: Reply)
      reads this
    {
      && Valid() && pg == PgExtend(old(pg), e, tables, reply)
      && (Small(pg) ==> run.states != [] && run == Extend(old(run), e, Last(run), reply))
    }

    constructor ()
      ensures Valid() && pg == PG_START && run == START
    {
      tables, pg, run := EMPTY_TABLES, PG_START, START;
      StartShadows();
    }

    /** Adds the call, which has left the tables as they are now, to the runs. */
    ghost method Note(e: Event, before: Tables, reply: Reply)
      requires PgHistory(pg) && before == pg.tables[|pg.events|] && (Small(pg) ==> Shadows(run, pg))
      requires PgLegal(before, e) && PgStep(before, e) == (tables, reply)
      modifies this`pg, this`run
      ensures Valid() && pg == PgExtend(old(pg), e, tables, reply)
      ensures Small(pg) ==> run.states != [] && run == Extend(old(run), e, Last(run), reply)
    {
      ExtendPg(pg, e, tables, reply);
      var longer := PgExtend(pg, e, tables, reply);
      if Small(longer) {
        SmallPrefix(pg, e, tables, reply);
        ExtendShadow(run, pg, e, tables, reply);
        run := Extend(run, e, Step(Last(run), e).0, reply);
      }
      pg := longer;
    }

    method Open(q: OpenRequest, id: Bytes) returns (reply: Reply)
      requires Valid()
      modifies this
      ensures Took(Memory.Open(q, id), reply)
    {
      reply := OpenTx(q, id);
      Note(Memory.Open(q, id), old(tables), reply);
    }

    method OpenTx(q: OpenRequest, id: Bytes) returns (reply: Reply)
      modifies this`tables
      ensures (tables, reply) == PgOpen(old(tables), q, id)
    {
      if q.owner != "" && q.owner in tables.slots && tables.slots[q.owner].subject != q.key.subject {
        return Failed(SlotTaken);
      }
      var locked := LockRow(Lookup(tables.databases, q.key), q);
      if locked.Refusal? { return Failed(locked.error); }
      var row := locked.row;
      if q.resume.Some? {
        if !HoldsRow(row, q.resume.value.leaseEpoch) || row.leaseID != q.resume.value.leaseID { return Failed(Fenced); }
        tables := Update(tables, q.key, ExtendLease(row, q.now + q.ttl));
        return Opened(LeaseOf(row), StateOf(row), false);
      }
      var active := ActiveRow(row, q.now);
      if active && !q.takeover && !SameBytes(row.leaseHolder, q.instance) { return Failed(LeaseHeld(GrantedAt(row))); }
      if row.leaseEpoch == MAX63 { return Failed(Internal); }
      tables := Update(tables, q.key, GrantLease(row, id, q.instance, q.now, q.now + q.ttl));
      return Opened(Lease(id, ToUint64(row.leaseEpoch + 1)), StateOf(row), active);
    }

    /** The copy of a part fails if the part starts beyond its block. As long as the calls fit the columns none does,
        because the tables represent a state of the memory store. */
    method Fetch(k: Key, version: u64, first: u64, count: u64) returns (reply: Reply)
      requires Valid() && (Small(pg) || CopiesFit(tables, k, first, count))
      modifies this`pg, this`run
      ensures Took(Memory.Fetch(k, version, first, count), reply)
    {
      if Small(pg) && k in tables.databases { StoredPartsFit(pg, run, k, first, count); }
      HistorySmall(pg, |pg.events|);
      reply := FetchTx(k, version, first, count);
      Note(Memory.Fetch(k, version, first, count), tables, reply);
    }

    method FetchTx(k: Key, version: u64, first: u64, count: u64) returns (reply: Reply)
      requires CopiesFit(tables, k, first, count) && SmallParts(tables.blocks)
      ensures reply == PgFetch(tables, k, version, first, count)
    {
      if k !in tables.databases || tables.databases[k].deleted { return Failed(NotFound); }
      var row := tables.databases[k];
      if version != ToUint64(row.version) { return Failed(VersionConflict(ToUint64(row.version))); }
      var err := CheckRange(first, count, ToUint64(row.pageCount));
      if err.Some? { return Failed(err.value); }
      var written := FetchBlocks(tables.blocks, k, ToInt64(first), ToInt64(first + count));
      forall id | id in written ensures first <= ToUint64(id.idx) < first + count {
        SelectedIndex(first, count, id.idx);
      }
      var blocks := CopyRows(written, k, first, count, row.pageSize);
      return Pages(blocks);
    }

    method Commit(q: CommitRequest) returns (reply: Reply)
      requires Valid()
      modifies this
      ensures Took(Memory.Commit(q), reply)
    {
      reply := CommitTx(q);
      Note(Memory.Commit(q), old(tables), reply);
    }

    method CommitTx(q: CommitRequest) returns (reply: Reply)
      modifies this`tables
      ensures (tables, reply) == PgCommit(old(tables), q)
    {
      if q.key !in tables.databases { return Failed(NotFound); }
      var row := tables.databases[q.key];
      if !HoldsRow(row, q.leaseEpoch) { return Failed(Fenced); }
      var expires := q.now + q.ttl;
      if ToUint64(row.version) == Inc(q.baseVersion) && |q.commitID| > 0 && row.lastCommitID == q.commitID {
        tables := Update(tables, q.key, ExtendLease(row, expires));
        return Committed(ToUint64(row.version));
      }
      if ToUint64(row.version) != q.baseVersion { return Failed(VersionConflict(ToUint64(row.version))); }
      var err := ValidateCommit(row.pageSize, q);
      if err.Some? { return Failed(err.value); }
      if row.version == MAX63 { return Failed(Internal); }
      tables := ApplyTx(tables, q);
      return Committed(ToUint64(row.version + 1));
    }

    method Changes(k: Key, from: u64) returns (reply: Reply)
      requires Valid()
      modifies this`pg, this`run
      ensures Took(Memory.Changes(k, from), reply)
    {
      reply := ChangesTx(k, from);
      Note(Memory.Changes(k, from), tables, reply);
    }

    method ChangesTx(k: Key, from: u64) returns (reply: Reply)
      ensures reply == PgChanges(tables, k, from)
    {
      if k !in tables.databases || tables.databases[k].deleted { return Failed(NotFound); }
      var current := ToUint64(tables.databases[k].version);
      if from > current { return Failed(VersionAhead(from, current)); }
      if from == current { return Changed(ChangeSet(from, current, [], true)); }
      var oldest := Oldest(tables.changes, k);
      if oldest == 0 || ToUint64(oldest) > Inc(from) { return Changed(ChangeSet(from, current, [], false)); }
      var blocks := SeenRows(tables.changes, k, from);
      return Changed(ChangeSet(from, current, blocks, true));
    }

    method Renew(k: Key, epoch: u64, now: int, ttl: int) returns (reply: Reply)
      requires Valid()
      modifies this
      ensures Took(Memory.Renew(k, epoch, now, ttl), reply)
    {
      if !LeaseMatches(tables, k, ToInt64(epoch)) {
        reply := WhyNoRow(tables, k);
      } else {
        tables := Update(tables, k, ExtendLease(tables.databases[k], now + ttl));
        reply := Done;
      }
      Note(Memory.Renew(k, epoch, now, ttl), old(tables), reply);
    }

    method Release(k: Key, epoch: u64) returns (reply: Reply)
      requires Valid()
      modifies this
      ensures Took(Memory.Release(k, epoch), reply)
    {
      if !LeaseMatches(tables, k, ToInt64(epoch)) {
        reply := WhyNoRow(tables, k);
      } else {
        tables := Update(tables, k, ReleaseLease(tables.databases[k]));
        reply := Done;
      }
      Note(Memory.Release(k, epoch), old(tables), reply);
    }

    method Delete(q: DeleteRequest) returns (reply: Reply)
      requires Valid()
      modifies this
      ensures Took(Memory.Delete(q), reply)
    {
      if q.key !in tables.databases || tables.databases[q.key].deleted {
        reply := Deleted(0, false);
      } else {
        var row := tables.databases[q.key];
        var active := ActiveRow(row, q.now);
        if active && !q.takeover {
          reply := Failed(LeaseHeld(GrantedAt(row)));
        } else if !Removable(tables, q.key) {
          reply := Failed(Internal);
        } else {
          tables := RemoveRow(tables, q.key);
          reply := Deleted(ToUint64(row.leaseEpoch + 1), active);
        }
      }
      Note(Memory.Delete(q), old(tables), reply);
    }

    /** `candidates` is the answer of the UnusedDatabases statement. Each row is its own transaction. */
    method DeleteUnused(cutoff: int, limit: nat, candidates: seq<Key>) returns (reply: Reply)
      requires Valid() && UnusedDatabases(tables, cutoff, Min(limit, 0x4000_0000), candidates)
      modifies this
      ensures Took(Memory.DeleteUnused(cutoff, limit, candidates), reply)
    {
      reply := DeleteEach(cutoff, candidates);
      Note(Memory.DeleteUnused(cutoff, limit, candidates), old(tables), reply);
    }

    method DeleteEach(cutoff: int, candidates: seq<Key>) returns (reply: Reply)
      modifies this`tables
      ensures (tables, reply) == PgDeleteUnused(old(tables), cutoff, candidates)
    {
      var deleted: seq<Key> := [];
      var n := 0;
      while n < |candidates|
        invariant n <= |candidates| && SweepRows(old(tables), cutoff, candidates[..n]) == (tables, deleted, false)
      {
        var k := candidates[n];
        assert candidates[..n + 1][..n] == candidates[..n];
        SweepFailed(old(tables), cutoff, candidates, n);
        var row := SweepRow(tables, cutoff, k);
        if row.None? { return Failed(Internal); }
        if UnusedRow(tables, cutoff, k) { deleted := deleted + [k]; }
        tables := row.value;
        n := n + 1;
      }
      assert candidates[..n] == candidates;
      tables := ReleaseUnusedSlots(tables, cutoff);
      return Keys(deleted);
    }

    /** keysOf, for the databases of one subject. */
    method KeysOf(subject: string) returns (keys: seq<Key>)
      ensures keys == PurgedKeys(tables, subject)
    {
      var rest := tables.databases.Keys;
      var ids: seq<string> := [];
      while rest != {}
        invariant rest <= tables.databases.Keys
        invariant Elements(ids) == set k | k in tables.databases && k !in rest && k.subject == subject
                                           && !tables.databases[k].deleted :: k.dbid
        decreases rest
      {
        var k :| k in rest;
        rest := rest - {k};
        if k.subject == subject && !tables.databases[k].deleted {
          ElementsAdd(ids, [k.dbid]);
          ids := ids + [k.dbid];
        }
      }
      assert Elements(ids) == LiveRowIDs(tables, subject);
      keys := SortKeys(ids, subject);
    }

    method GetSlot(owner: string) returns (reply: Reply)
      requires Valid()
      modifies this`pg, this`run
      ensures Took(Memory.GetSlot(owner), reply)
    {
      reply := SlotIs(Lookup(tables.slots, owner));
      Note(Memory.GetSlot(owner), tables, reply);
    }

    method ClaimSlot(q: ClaimRequest) returns (reply: Reply)
      requires Valid()
      modifies this
      ensures Took(Memory.ClaimSlot(q), reply)
    {
      var slot := Slot(q.subject, "", q.now);
      if q.owner !in tables.slots {
        tables := tables.(slots := tables.slots[q.owner := slot]);
        reply := Claimed(slot, None, []);
      } else {
        var held := tables.slots[q.owner];
        if held.subject == q.subject {
          reply := Claimed(held, None, []);
        } else {
          var purged := KeysOf(held.subject);
          tables := PurgeSubject(tables, held.subject).(slots := tables.slots[q.owner := slot]);
          reply := Claimed(slot, Some(held), purged);
        }
      }
      Note(Memory.ClaimSlot(q), old(tables), reply);
    }

    method SetSlotLabel(owner: string, subject: string, text: string) returns (reply: Reply)
      requires Valid()
      modifies this
      ensures Took(Memory.SetSlotLabel(owner, subject, text), reply)
    {
      if owner in tables.slots && tables.slots[owner].subject == subject {
        var slot := tables.slots[owner].(labelText := text);
        tables := tables.(slots := tables.slots[owner := slot]);
        reply := Claimed(slot, None, []);
      } else {
        reply := if owner in tables.slots then Failed(SlotTaken) else Failed(NotFound);
      }
      Note(Memory.SetSlotLabel(owner, subject, text), old(tables), reply);
    }

    method DeleteSlot(owner: string, subject: string) returns (reply: Reply)
      requires Valid()
      modifies this
      ensures Took(Memory.DeleteSlot(owner, subject), reply)
    {
      if owner in tables.slots && tables.slots[owner].subject != subject {
        reply := Failed(SlotTaken);
      } else {
        var purged := KeysOf(subject);
        tables := PurgeSubject(tables, subject).(slots := tables.slots - {owner});
        reply := Keys(purged);
      }
      Note(Memory.DeleteSlot(owner, subject), old(tables), reply);
    }
  }

  lemma SmallPrefix(pg: PgRun, e: Event, t: Tables, reply: Reply)
    requires Small(PgExtend(pg, e, t, reply))
    ensures Small(pg) && |pg.events| < MAX63 && Fits(e)
  {
    var longer := PgExtend(pg, e, t, reply);
    assert longer.events[|pg.events|] == e;
    forall i | 0 <= i < |pg.events| ensures Fits(pg.events[i]) {
      assert longer.events[i] == pg.events[i];
    }
  }

  lemma StoredPartsFit(pg: PgRun, run: Run, k: Key, first: u64, count: u64)
    requires Shadows(run, pg) && k in pg.tables[|pg.events|].databases
    ensures CopiesFit(pg.tables[|pg.events|], k, first, count)
  {
    var n := |pg.events|;
    LastStates(run, pg);
    RelAt(pg.tables[n], Last(run), k);
    RelatedCopiesFit(pg.tables[n], k, Last(run).dbs[k], first, count);
  }

  lemma {:induction false} SweepFailed(t: Tables, cutoff: int, candidates: seq<Key>, n: nat)
    requires n < |candidates|
    ensures SweepRows(t, cutoff, candidates[..n + 1]).2 ==>
              && SweepRows(t, cutoff, candidates).2
              && SweepRows(t, cutoff, candidates).0 == SweepRows(t, cutoff, candidates[..n + 1]).0
    decreases |candidates|
  {
    if n + 1 == |candidates| {
      assert candidates[..n + 1] == candidates;
    } else {
      var init := candidates[..|candidates| - 1];
      SweepFailed(t, cutoff, init, n);
      assert init[..n + 1] == candidates[..n + 1];
    }
  }
}
