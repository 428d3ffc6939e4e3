/** The PostgreSQL store simulates the memory store: every call keeps the relation, and the answers are equal. */
module Simulation {
  import opened Basics
  import opened Store
  import opened BlockParts
  import opened Tables
  import opened Postgres
  import opened Memory
  import opened Runs
  import opened Relation

  lemma RelBlocksSame(parts: Parts, parts': Parts, k: Key, blocks: map<u64, Bytes>)
    requires RelBlocks(parts, k, blocks)
    requires forall id: PartID :: id.key == k ==> Lookup(parts', id) == Lookup(parts, id)
    ensures RelBlocks(parts', k, blocks)
  {
    forall id | id in parts' && id.key == k ensures id in parts && parts[id] == parts'[id] {
      assert Lookup(parts', id) == Lookup(parts, id);
    }
    forall i: u64, p: nat | i in blocks && p < PartCount(blocks[i]) ensures PartID(k, i, p) in parts' {
      assert Lookup(parts', PartID(k, i, p)) == Lookup(parts, PartID(k, i, p));
    }
  }

  lemma RelLogSame(log: Log, log': Log, k: Key, changes: seq<Change>, version: u64)
    requires RelLog(log, k, changes, version)
    requires forall id: ChangeID :: id.key == k ==> Lookup(log', id) == Lookup(log, id)
    ensures RelLog(log', k, changes, version)
  {
    forall id | id in log' && id.key == k ensures id in log && log[id] == log'[id] {
      assert Lookup(log', id) == Lookup(log, id);
    }
    forall v: i64 | version - |changes| < v <= version ensures ChangeID(k, v) in log' {
      assert Lookup(log', ChangeID(k, v)) == Lookup(log, ChangeID(k, v));
    }
  }

  lemma RelElsewhere(t: Tables, t': Tables, k: Key, k': Key, db: Record)
    requires k' != k && SameElsewhere(t, t', k) && RelKey(t, k', db)
    ensures RelKey(t', k', db)
  {
    assert Lookup(t'.databases, k') == Lookup(t.databases, k');
    RelBlocksSame(t.blocks, t'.blocks, k', db.blocks);
    RelLogSame(t.changes, t'.changes, k', db.changes, db.state.version);
  }

  lemma RelUpdate(t: Tables, s: StoreState, t': Tables, k: Key, db: Record)
    requires Rel(t, s) && SameElsewhere(t, t', k) && RelKey(t', k, db)
    ensures Rel(t', s.(dbs := s.dbs[k := db]))
  {
    forall k' | k' in s.dbs && k' != k ensures RelKey(t', k', s.dbs[k']) {
      RelAt(t, s, k');
      RelElsewhere(t, t', k, k', s.dbs[k']);
    }
    forall k' ensures k' in t'.databases <==> k' == k || k' in s.dbs {
      if k' != k { assert Lookup(t'.databases, k') == Lookup(t.databases, k'); }
    }
    forall id | id in t'.blocks ensures id.key in t'.databases {
      if id.key != k { assert Lookup(t'.blocks, id) == Lookup(t.blocks, id); }
    }
    forall id | id in t'.changes ensures id.key in t'.databases {
      if id.key != k { assert Lookup(t'.changes, id) == Lookup(t.changes, id); }
    }
  }

  // ---- blocks ----

  /** Upserting the parts of `data` over a block that has no more parts keeps the representation. */
  lemma PutBlockRel(parts: Parts, k: Key, blocks: map<u64, Bytes>, index: u64, data: Bytes)
    requires RelBlocks(parts, k, blocks) && index <= MAX63
    requires index in blocks ==> PartCount(blocks[index]) <= PartCount(data)
    ensures RelBlocks(PutBlock(parts, k, index, data), k, blocks[index := data])
  {
    var parts', blocks', n := PutBlock(parts, k, index, data), blocks[index := data], PartCount(data);
    forall id | id in parts' && id.key == k
      ensures && 0 <= id.idx && id.idx in blocks' && 0 <= id.part < PartCount(blocks'[id.idx])
              && parts'[id] == Part(blocks'[id.idx], id.part)
    {
      PutPartsAt(parts, k, index, data, n, id);
      if id.idx != index { assert id in parts && parts'[id] == parts[id]; }
    }
    forall i: u64, p: nat | i in blocks' && p < PartCount(blocks'[i]) ensures PartID(k, i, p) in parts' {
      PutPartsAt(parts, k, index, data, n, PartID(k, i, p));
      if i != index { assert PartID(k, i, p) in parts; }
    }
  }

  /** And exactly then: of a block with more parts, the surplus ones would stay. The blocks of a database all have its
      page size, so no commit does that. */
  lemma PutBlockRelExactly(parts: Parts, k: Key, blocks: map<u64, Bytes>, index: u64, data: Bytes)
    requires RelBlocks(parts, k, blocks) && index <= MAX63
    ensures RelBlocks(PutBlock(parts, k, index, data), k, blocks[index := data])
            <==> (index in blocks ==> PartCount(blocks[index]) <= PartCount(data))
  {
    if index in blocks && PartCount(blocks[index]) > PartCount(data) {
      var id := PartID(k, index, PartCount(data));
      assert id in parts;
      PutPartsAt(parts, k, index, data, PartCount(data), id);
      assert id in PutBlock(parts, k, index, data);
    } else {
      PutBlockRel(parts, k, blocks, index, data);
    }
  }

  lemma {:induction false} PutBlocksRel(parts: Parts, k: Key, blocks: map<u64, Bytes>, written: seq<Block>, pageSize: u32)
    requires RelBlocks(parts, k, blocks)
    requires forall i :: i in blocks ==> |blocks[i]| == pageSize
    requires forall n :: 0 <= n < |written| ==> |written[n].data| == pageSize && written[n].index <= MAX63
    ensures RelBlocks(PutBlocks(parts, k, written), k, WriteBlocks(blocks, written))
    ensures forall i :: i in WriteBlocks(blocks, written) ==> |WriteBlocks(blocks, written)[i]| == pageSize
  {
    if written != [] {
      var init, last := written[..|written| - 1], written[|written| - 1];
      PutBlocksRel(parts, k, blocks, init, pageSize);
      PutBlockRel(PutBlocks(parts, k, init), k, WriteBlocks(blocks, init), last.index, last.data);
    }
  }

  lemma {:induction false} PutBlocksElsewhere(parts: Parts, k: Key, written: seq<Block>, id: PartID)
    requires id.key != k
    ensures Lookup(PutBlocks(parts, k, written), id) == Lookup(parts, id)
  {
    if written != [] {
      var init, last := written[..|written| - 1], written[|written| - 1];
      PutBlocksElsewhere(parts, k, init, id);
      PutPartsAt(PutBlocks(parts, k, init), k, ToInt64(last.index), last.data, PartCount(last.data), id);
    }
  }

  /** Deleting the parts from the page count on truncates the sparse file. */
  lemma TruncateRel(parts: Parts, k: Key, blocks: map<u64, Bytes>, pageCount: u64)
    requires RelBlocks(parts, k, blocks) && pageCount <= MAX63
    ensures RelBlocks(DeleteBlocksFrom(parts, k, pageCount), k, Truncate(blocks, pageCount))
  {}

  /** Copying the parts back yields the block of the sparse file. */
  lemma ReadBackRel(parts: Parts, k: Key, db: Record, index: u64, lo: i64, hi: i64)
    requires RelBlocks(parts, k, db.blocks) && GoodBlocks(db.blocks, db.state.pageSize, db.state.pageCount)
    requires lo <= index < hi
    ensures ReadBack(FetchBlocks(parts, k, lo, hi), k, index, db.state.pageSize) == Read(db, index)
  {
    var rows := FetchBlocks(parts, k, lo, hi);
    var block := ReadBack(rows, k, index, db.state.pageSize);
    forall o | 0 <= o < db.state.pageSize ensures block[o] == Read(db, index)[o] {
      var id := PartID(k, index, o / PART);
      if index in db.blocks {
        var data := db.blocks[index];
        assert o / PART < PartCount(data);
        PartLength(data, o / PART);
        assert id in parts && parts[id] == Part(data, o / PART);
      } else {
        assert id !in parts;
      }
    }
  }

  // ---- the change log ----

  lemma TouchedRel(blocks: seq<Block>)
    requires forall n :: 0 <= n < |blocks| ==> blocks[n].index <= MAX63
    ensures SortedTouched(blocks) == SortedIndexes(Indexes(blocks))
  {
    SmallerOrder();
    var a: seq<i64>, b := SortedTouched(blocks), SortedIndexes(Indexes(blocks));
    forall n | 0 <= n < |b| ensures b[n] <= MAX63 {
      assert b[n] in Indexes(blocks);
    }
    var c: seq<i64> := b;
    assert Ascending(c, Smaller) by {
      forall i, j | 0 <= i < j < |c| ensures Smaller(c[i], c[j]) { assert Below(b[i], b[j]); }
    }
    forall x: i64 ensures x in a <==> x in c {
      if x in a {
        var n :| 0 <= n < |blocks| && ToInt64(blocks[n].index) == x;
        assert x in Indexes(blocks);
        assert x in b;
      }
      if x in c {
        assert x in Indexes(blocks);
        assert x in (set v | v in blocks :: ToInt64(v.index));
      }
    }
    AscendingUnique(a, c, Smaller);
  }

  lemma RecordedRel(log: Log, k: Key, changes: seq<Change>, version: u64, touched: seq<i64>, written: seq<u64>)
    requires RelLog(log, k, changes, version) && |changes| <= version < MAX63 && touched == written
    ensures ChangeID(k, version + 1) !in log
    ensures RelLog(RecordChange(log, k, version + 1, touched), k, changes + [Change(version + 1, written)], version + 1)
  {
    var longer, recorded := changes + [Change(version + 1, written)], RecordChange(log, k, version + 1, touched);
    forall id | id in recorded && id.key == k
      ensures version + 1 - |longer| < id.version <= version + 1
      ensures recorded[id] == longer[id.version - version - 1 + |longer| - 1].blocks
    {
      if id.version <= version { assert id in log; }
    }
  }

  /** What recordChange leaves, given the sorted indexes. */
  function Pruned(log: Log, k: Key, version: u64, touched: seq<i64>): Log
    requires version <= MAX63
  {
    var longer := RecordChange(log, k, version, touched);
    if version <= CHANGE_WINDOW then longer else PruneChanges(longer, k, version - CHANGE_WINDOW)
  }

  /** Pruning by version keeps what trimming by length keeps. */
  lemma PrunedRel(log: Log, k: Key, changes: seq<Change>, version: u64, touched: seq<i64>, written: seq<u64>)
    requires RelLog(log, k, changes, version) && |changes| <= Min(CHANGE_WINDOW, version) && version < MAX63
    requires touched == written
    ensures RelLog(Pruned(log, k, version + 1, touched), k, Trim(changes + [Change(version + 1, written)]), version + 1)
  {
    RecordedRel(log, k, changes, version, touched, written);
    TrimmedRel(RecordChange(log, k, version + 1, touched), k, changes + [Change(version + 1, written)], version + 1);
  }

  lemma TrimmedRel(log: Log, k: Key, changes: seq<Change>, version: u64)
    requires RelLog(log, k, changes, version) && |changes| <= Min(CHANGE_WINDOW + 1, version) && version <= MAX63
    ensures RelLog(if version <= CHANGE_WINDOW then log else PruneChanges(log, k, version - CHANGE_WINDOW),
                   k, Trim(changes), version)
  {
    if version > CHANGE_WINDOW { PruneRel(log, k, changes, version); }
  }

  lemma RecordIsPruned(log: Log, k: Key, version: u64, blocks: seq<Block>)
    requires version <= MAX63
    ensures RecordAndPrune(log, k, version, blocks) == Pruned(log, k, version, SortedTouched(blocks))
  {
  }

  lemma RecordRel(log: Log, k: Key, changes: seq<Change>, version: u64, blocks: seq<Block>)
    requires RelLog(log, k, changes, version) && |changes| <= Min(CHANGE_WINDOW, version) && version < MAX63
    requires forall n :: 0 <= n < |blocks| ==> blocks[n].index <= MAX63
    ensures RelLog(RecordAndPrune(log, k, version + 1, blocks), k,
                   Trim(changes + [Change(version + 1, SortedIndexes(Indexes(blocks)))]), version + 1)
  {
    TouchedRel(blocks);
    RecordIsPruned(log, k, version + 1, blocks);
    PrunedRel(log, k, changes, version, SortedTouched(blocks), SortedIndexes(Indexes(blocks)));
  }

  lemma PruneRel(log: Log, k: Key, changes: seq<Change>, version: u64)
    requires RelLog(log, k, changes, version) && |changes| <= CHANGE_WINDOW + 1 && CHANGE_WINDOW < version <= MAX63
    ensures RelLog(PruneChanges(log, k, version - CHANGE_WINDOW), k, Trim(changes), version)
  {
    var pruned, kept := PruneChanges(log, k, version - CHANGE_WINDOW), Trim(changes);
    forall id | id in pruned && id.key == k
      ensures version - |kept| < id.version <= version
      ensures pruned[id] == kept[id.version - version + |kept| - 1].blocks
    {
      assert id in log;
    }
  }

  lemma OldestRel(log: Log, k: Key, changes: seq<Change>, version: u64)
    requires RelLog(log, k, changes, version) && |changes| <= version <= MAX63
    ensures OldestChange(log, k) == if |changes| == 0 then 0 else version - |changes| + 1
  {
    var versions := VersionsOf(log, k);
    if |changes| > 0 {
      var first: i64 := version - |changes| + 1;
      assert ChangeID(k, first) in log;
      assert first in versions;
    } else {
      assert versions == {};
    }
  }

  lemma SeenRel(log: Log, k: Key, db: Record, from: u64)
    requires RelLog(log, k, db.changes, db.state.version) && GoodLog(db) && from <= MAX63 && db.state.version <= MAX63
    ensures (set i | i in ChangedSince(log, k, from) :: ToUint64(i)) == WrittenAfter(db.changes, from)
  {
    var seen := set i | i in ChangedSince(log, k, from) :: ToUint64(i);
    forall x | x in seen ensures x in WrittenAfter(db.changes, from) {
      var i :| i in ChangedSince(log, k, from) && ToUint64(i) == x;
      var id, n :| id in log && id.key == k && id.version > from && 0 <= n < |log[id]| && log[id][n] == i;
      var m := id.version - db.state.version + |db.changes| - 1;
      assert db.changes[m].version == id.version && db.changes[m].blocks[n] == i == x;
      assert x in db.changes[m].blocks;
    }
    forall x | x in WrittenAfter(db.changes, from) ensures x in seen {
      var n :| 0 <= n < |db.changes| && db.changes[n].version > from && x in db.changes[n].blocks;
      var id := ChangeID(k, db.changes[n].version);
      assert id in log && log[id] == db.changes[n].blocks;
      var m :| 0 <= m < |log[id]| && log[id][m] == x;
      assert log[id][m] in ChangedSince(log, k, from);
    }
  }

  // ---- one call ----

  /** Only the row changes. */
  lemma RowRel(t: Tables, s: StoreState, k: Key, row: Row, db: Record)
    requires Rel(t, s) && RelRow(row, db)
    requires match Lookup(s.dbs, k)
             case Some(was) => db.blocks == was.blocks && db.changes == was.changes && db.state.version == was.state.version
             case None => db.blocks == map[] && db.changes == []
    ensures Rel(Update(t, k, row), s.(dbs := s.dbs[k := db]))
  {
    if k in s.dbs { RelAt(t, s, k); }
    RelUpdate(t, s, Update(t, k, row), k, db);
  }

  lemma RelLookup(t: Tables, s: StoreState, k: Key)
    requires Rel(t, s) && Roomy(s)
    ensures RelOption(Lookup(t.databases, k), Lookup(s.dbs, k))
  {
    if k in s.dbs { RelAt(t, s, k); }
  }

  lemma LockRowRel(row: Option<Row>, r: Option<Record>, q: OpenRequest)
    requires RelOption(row, r)
    ensures match LockRow(row, q)
            case Refusal(e) => Prepare(r, q) == Refused(e)
            case Found(row') =>
              && Prepare(r, q).Ready?
              && var db := Prepare(r, q).db;
                 && db.lease.epoch == row'.leaseEpoch < MAX63 && db.holder == row'.leaseHolder
                 && db.lease.id == row'.leaseID && StateOf(row') == db.state && !row'.deleted && !db.deleted
                 && (db.holder.Some? ==> row'.leaseGranted == Some(db.grantedAt) && row'.leaseExpires == Some(db.expiresAt))
                 && (r.None? || r.value.deleted ==> db.holder.None?)
                 && (r.Some? && !r.value.deleted ==> r.value == db)
                 && match r
                    case Some(was) => SameFile(db, was)
                    case None => db.blocks == map[] && db.changes == []
  {}

  lemma OpenRowRel(row: Option<Row>, r: Option<Record>, q: OpenRequest, id: Bytes)
    requires RelOption(row, r)
    ensures var (row', reply) := OpenRow(row, q, id);
            var (r', expected) := OpenRecord(r, q, id);
            && reply == expected
            && (row'.None? ==> r' == r)
            && (row'.Some? ==>
                  && r'.Some? && RelRow(row'.value, r'.value)
                  && match r
                     case Some(was) => SameFile(r'.value, was)
                     case None => r'.value.blocks == map[] && r'.value.changes == [])
  {
    LockRowRel(row, r, q);
  }

  lemma OpenRel(t: Tables, s: StoreState, q: OpenRequest, id: Bytes)
    requires Rel(t, s) && Roomy(s) && !LockedOut(s, q)
    ensures PgOpen(t, q, id).1 == OpenRecord(Lookup(s.dbs, q.key), q, id).1
    ensures Rel(PgOpen(t, q, id).0, s.(dbs := Put(s.dbs, q.key, OpenRecord(Lookup(s.dbs, q.key), q, id).0)))
  {
    RelLookup(t, s, q.key);
    var found, r := Lookup(t.databases, q.key), Lookup(s.dbs, q.key);
    OpenRowRel(found, r, q, id);
    var row, r' := OpenRow(found, q, id).0, OpenRecord(r, q, id).0;
    if row.Some? { RowRel(t, s, q.key, row.value, r'.value); } else { PutSame(s.dbs, q.key); }
  }

  lemma PutSame(dbs: map<Key, Record>, k: Key)
    ensures Put(dbs, k, Lookup(dbs, k)) == dbs
  {}

  lemma ExtendRel(t: Tables, s: StoreState, k: Key, expires: int)
    requires Rel(t, s) && k in s.dbs && !s.dbs[k].deleted
    ensures k in t.databases
    ensures Rel(Update(t, k, ExtendLease(t.databases[k], expires)), s.(dbs := s.dbs[k := s.dbs[k].(expiresAt := expires)]))
  {
    RelAt(t, s, k);
    RowRel(t, s, k, ExtendLease(t.databases[k], expires), s.dbs[k].(expiresAt := expires));
  }

  lemma RenewRel(t: Tables, s: StoreState, k: Key, epoch: u64, now: int, ttl: int)
    requires Rel(t, s) && Roomy(s)
    ensures PgRenew(t, k, epoch, now, ttl).1 == RenewRecord(Lookup(s.dbs, k), epoch, now, ttl).1
    ensures Rel(PgRenew(t, k, epoch, now, ttl).0, s.(dbs := Put(s.dbs, k, RenewRecord(Lookup(s.dbs, k), epoch, now, ttl).0)))
  {
    RelLookup(t, s, k);
    PutSame(s.dbs, k);
    if k in s.dbs && Holds(s.dbs[k], epoch) { ExtendRel(t, s, k, now + ttl); }
  }

  lemma ReleaseRel(t: Tables, s: StoreState, k: Key, epoch: u64)
    requires Rel(t, s) && Roomy(s)
    ensures PgRelease(t, k, epoch).1 == ReleaseRecord(Lookup(s.dbs, k), epoch).1
    ensures Rel(PgRelease(t, k, epoch).0, s.(dbs := Put(s.dbs, k, ReleaseRecord(Lookup(s.dbs, k), epoch).0)))
  {
    RelLookup(t, s, k);
    PutSame(s.dbs, k);
    if k in s.dbs && Holds(s.dbs[k], epoch) {
      RowRel(t, s, k, ReleaseLease(t.databases[k]), s.dbs[k].(holder := None));
    }
  }

  // ---- Delete ----

  lemma RemoveKeyRel(t: Tables, k: Key, db: Record)
    requires RelKey(t, k, db) && db.state.version < MAX63 && db.lease.epoch < MAX63
    ensures Removable(t, k) && RelKey(RemoveRow(t, k), k, Remove(db))
  {
    forall id | id in t.blocks && id.key == k ensures id.idx >= 0 {}
  }

  lemma RemoveElsewhere(t: Tables, k: Key)
    requires Removable(t, k)
    ensures SameElsewhere(t, RemoveRow(t, k), k)
  {}

  lemma RemoveRel(t: Tables, s: StoreState, k: Key)
    requires Rel(t, s) && k in s.dbs && s.dbs[k].state.version < MAX63 && s.dbs[k].lease.epoch < MAX63
    ensures Removable(t, k) && Rel(RemoveRow(t, k), s.(dbs := s.dbs[k := Remove(s.dbs[k])]))
  {
    RelAt(t, s, k);
    RemoveKeyRel(t, k, s.dbs[k]);
    RemoveElsewhere(t, k);
    RelUpdate(t, s, RemoveRow(t, k), k, Remove(s.dbs[k]));
  }

  lemma DeleteRel(t: Tables, s: StoreState, q: DeleteRequest)
    requires Rel(t, s) && Roomy(s)
    ensures PgDelete(t, q).1 == DeleteRecord(Lookup(s.dbs, q.key), q).1
    ensures Rel(PgDelete(t, q).0, s.(dbs := Put(s.dbs, q.key, DeleteRecord(Lookup(s.dbs, q.key), q).0)))
  {
    RelLookup(t, s, q.key);
    PutSame(s.dbs, q.key);
    if q.key in s.dbs { RemoveRel(t, s, q.key); }
  }

  // ---- Fetch and Changes ----

  lemma ReadRangeRel(parts: Parts, k: Key, db: Record, first: u64, count: u64)
    requires RelBlocks(parts, k, db.blocks) && GoodBlocks(db.blocks, db.state.pageSize, db.state.pageCount)
    requires first + count <= MAX63
    ensures var rows := FetchBlocks(parts, k, first, first + count);
            seq(count, i requires 0 <= i < count => ReadBack(rows, k, ToInt64(first + i), db.state.pageSize))
            == ReadRange(db, first, count)
  {
    var rows := FetchBlocks(parts, k, first, first + count);
    var blocks := seq(count, i requires 0 <= i < count => ReadBack(rows, k, ToInt64(first + i), db.state.pageSize));
    forall i | 0 <= i < count ensures blocks[i] == ReadRange(db, first, count)[i] {
      ReadBackRel(parts, k, db, first + i, first, first + count);
      assert blocks[i] == ReadBack(rows, k, ToInt64(first + i), db.state.pageSize);
      assert ReadRange(db, first, count)[i] == Read(db, first + i);
    }
  }

  lemma FetchKeyRel(t: Tables, k: Key, db: Record, version: u64, first: u64, count: u64)
    requires RelKey(t, k, db) && Good(db)
    ensures PgFetch(t, k, version, first, count) == FetchRecord(Some(db), version, first, count)
  {
    if first + count <= db.state.pageCount { ReadRangeRel(t.blocks, k, db, first, count); }
  }

  lemma ChangesKeyRel(t: Tables, k: Key, db: Record, from: u64)
    requires RelKey(t, k, db) && Good(db)
    ensures PgChanges(t, k, from) == ChangesRecord(Some(db), from)
  {
    OldestRel(t.changes, k, db.changes, db.state.version);
    if from <= db.state.version { SeenRel(t.changes, k, db, from); }
  }

  // ---- Commit ----

  lemma CommitBlocksRel(parts: Parts, k: Key, db: Record, q: CommitRequest)
    requires RelBlocks(parts, k, db.blocks) && GoodBlocks(db.blocks, db.state.pageSize, db.state.pageCount)
    requires ValidCommit(db.state.pageSize, q) && q.pageCount <= MAX63
    ensures RelBlocks(DeleteBlocksFrom(PutBlocks(parts, k, q.blocks), k, q.pageCount), k, Apply(db, q).blocks)
  {
    PutBlocksRel(parts, k, db.blocks, q.blocks, db.state.pageSize);
    TruncateRel(PutBlocks(parts, k, q.blocks), k, WriteBlocks(db.blocks, q.blocks), q.pageCount);
  }

  lemma CommitLogRel(log: Log, k: Key, db: Record, q: CommitRequest)
    requires RelLog(log, k, db.changes, db.state.version) && GoodLog(db) && db.state.version < MAX63
    requires ValidCommit(db.state.pageSize, q) && q.pageCount <= MAX63
    ensures RelLog(RecordAndPrune(log, k, db.state.version + 1, q.blocks), k, Apply(db, q).changes, db.state.version + 1)
  {
    RecordRel(log, k, db.changes, db.state.version, q.blocks);
  }

  lemma ApplyRowRel(row: Row, db: Record, q: CommitRequest)
    requires RelRow(row, db) && db.state.version < MAX63 && !db.deleted && q.pageCount <= MAX63
    ensures row.version < MAX63 && RelRow(ApplyCommit(row, ToInt64(q.pageCount), q.commitID, q.now + q.ttl), Apply(db, q))
    ensures Apply(db, q).state.version == db.state.version + 1
  {}

  lemma ApplyBlocksRel(t: Tables, k: Key, db: Record, q: CommitRequest)
    requires k in t.databases && t.databases[k].version < MAX63 && q.key == k
    requires RelBlocks(t.blocks, k, db.blocks) && GoodBlocks(db.blocks, db.state.pageSize, db.state.pageCount)
    requires ValidCommit(db.state.pageSize, q) && q.pageCount <= MAX63
    ensures RelBlocks(PgApply(t, q).blocks, k, Apply(db, q).blocks)
  {
    CommitBlocksRel(t.blocks, k, db, q);
  }

  lemma ApplyLogRel(t: Tables, k: Key, db: Record, q: CommitRequest)
    requires k in t.databases && t.databases[k].version == db.state.version < MAX63 && q.key == k
    requires RelLog(t.changes, k, db.changes, db.state.version) && GoodLog(db)
    requires ValidCommit(db.state.pageSize, q) && q.pageCount <= MAX63
    ensures RelLog(PgApply(t, q).changes, k, Apply(db, q).changes, Apply(db, q).state.version)
  {
    CommitLogRel(t.changes, k, db, q);
  }

  lemma ApplyKeyRel(t: Tables, k: Key, db: Record, q: CommitRequest)
    requires RelKey(t, k, db) && Good(db) && db.state.version < MAX63 && !db.deleted
    requires ValidCommit(db.state.pageSize, q) && q.pageCount <= MAX63 && q.key == k
    ensures t.databases[k].version < MAX63 && RelKey(PgApply(t, q), k, Apply(db, q))
  {
    ApplyRowRel(t.databases[k], db, q);
    var t', db' := PgApply(t, q), Apply(db, q);
    assert RelRow(t'.databases[k], db');
    assert RelBlocks(t'.blocks, k, db'.blocks) by { ApplyBlocksRel(t, k, db, q); }
    assert RelLog(t'.changes, k, db'.changes, db'.state.version) by { ApplyLogRel(t, k, db, q); }
  }

  lemma ApplyElsewhere(t: Tables, q: CommitRequest)
    requires q.key in t.databases && 0 <= t.databases[q.key].version < MAX63
    ensures SameElsewhere(t, PgApply(t, q), q.key)
  {
    forall id: PartID | id.key != q.key ensures Lookup(PgApply(t, q).blocks, id) == Lookup(t.blocks, id) {
      PutBlocksElsewhere(t.blocks, q.key, q.blocks, id);
    }
  }

  lemma ApplyRel(t: Tables, s: StoreState, q: CommitRequest)
    requires Rel(t, s) && Roomy(s) && q.key in s.dbs && q.pageCount <= MAX63
    requires ValidCommit(s.dbs[q.key].state.pageSize, q) && !s.dbs[q.key].deleted
    ensures q.key in t.databases && 0 <= t.databases[q.key].version < MAX63
    ensures Rel(PgApply(t, q), s.(dbs := s.dbs[q.key := Apply(s.dbs[q.key], q)]))
  {
    RelAt(t, s, q.key);
    ApplyKeyRel(t, q.key, s.dbs[q.key], q);
    ApplyElsewhere(t, q);
    RelUpdate(t, s, PgApply(t, q), q.key, Apply(s.dbs[q.key], q));
  }

  /** Both stores refuse, repeat or apply the same commits. */
  lemma CommitCases(t: Tables, r: Option<Record>, q: CommitRequest)
    requires RelOption(Lookup(t.databases, q.key), r)
    ensures PgCommit(t, q).1 == CommitRecord(r, q).1
    ensures || (PgCommit(t, q).0 == t && CommitRecord(r, q).0 == r)
            || (r.Some? && !r.value.deleted
                && PgCommit(t, q).0 == Update(t, q.key, ExtendLease(t.databases[q.key], q.now + q.ttl))
                && CommitRecord(r, q).0 == Some(r.value.(expiresAt := q.now + q.ttl)))
            || (r.Some? && !r.value.deleted && ValidCommit(r.value.state.pageSize, q)
                && t.databases[q.key].version < MAX63
                && PgCommit(t, q).0 == PgApply(t, q) && CommitRecord(r, q).0 == Some(Apply(r.value, q)))
  {
    if r.Some? { CommitErrorNone(r.value.state.pageSize, q); }
  }

  lemma CommitRel(t: Tables, s: StoreState, q: CommitRequest)
    requires Rel(t, s) && Roomy(s) && q.pageCount <= MAX63
    ensures PgCommit(t, q).1 == CommitRecord(Lookup(s.dbs, q.key), q).1
    ensures Rel(PgCommit(t, q).0, s.(dbs := Put(s.dbs, q.key, CommitRecord(Lookup(s.dbs, q.key), q).0)))
  {
    var k, r := q.key, Lookup(s.dbs, q.key);
    RelLookup(t, s, k);
    CommitCases(t, r, q);
    var t', r' := PgCommit(t, q).0, CommitRecord(r, q).0;
    if t' == t && r' == r {
      PutSame(s.dbs, k);
    } else if r' == Some(r.value.(expiresAt := q.now + q.ttl)) {
      ExtendRel(t, s, k, q.now + q.ttl);
    } else {
      ApplyRel(t, s, q);
    }
  }

  lemma MissingPart(parts: Parts, k: Key, blocks: map<u64, Bytes>, i: u64)
    requires i in blocks && i <= MAX63 && |blocks[i]| > 0 && PartID(k, i, 0) !in parts
    ensures !RelBlocks(parts, k, blocks)
  {
    assert 0 < PartCount(blocks[i]);
  }

  /** A page count of 2^63 or more turns negative in the bigint column: the DELETE then takes every block below 2^63. So
      if such a block should survive the commit, the stores agree on the blocks exactly if the page count is below 2^63. */
  lemma CommitBlocksAgreeBelowInt64(parts: Parts, k: Key, db: Record, q: CommitRequest, i: u64)
    requires RelBlocks(parts, k, db.blocks) && Good(db) && ValidCommit(db.state.pageSize, q)
    requires i <= MAX63 && i in Apply(db, q).blocks
    ensures var after := DeleteBlocksFrom(PutBlocks(parts, k, q.blocks), k, ToInt64(q.pageCount));
            && (RelBlocks(after, k, Apply(db, q).blocks) <==> q.pageCount <= MAX63)
            && (q.pageCount > MAX63 ==> forall p :: PartID(k, i, p) !in after)
  {
    if q.pageCount <= MAX63 {
      CommitBlocksRel(parts, k, db, q);
    } else {
      WrittenGood(db.blocks, db.state.pageSize, db.state.pageCount, q);
      MissingPart(DeleteBlocksFrom(PutBlocks(parts, k, q.blocks), k, ToInt64(q.pageCount)), k, Apply(db, q).blocks, i);
    }
  }

  // ---- slots ----

  lemma PurgeRel(t: Tables, s: StoreState, keys: set<Key>)
    requires Rel(t, s)
    ensures Rel(PurgeKeys(t, keys), s.(dbs := s.dbs - keys))
  {
    var t' := PurgeKeys(t, keys);
    forall k | k in s.dbs && k !in keys ensures RelKey(t', k, s.dbs[k]) {
      var db := s.dbs[k];
      RelAt(t, s, k);
      RelBlocksSame(t.blocks, t'.blocks, k, db.blocks);
      RelLogSame(t.changes, t'.changes, k, db.changes, db.state.version);
    }
  }

  lemma PurgeSubjectRel(t: Tables, s: StoreState, subject: string)
    requires Rel(t, s)
    ensures Rel(PurgeSubject(t, subject), s.(dbs := WithoutSubject(s.dbs, subject)))
    ensures PurgedKeys(t, subject) == LiveKeys(s.dbs, subject)
  {
    var keys := KeysOfSubject(t, subject);
    PurgeRel(t, s, keys);
    assert s.dbs - keys == WithoutSubject(s.dbs, subject);
    forall k | k in s.dbs ensures t.databases[k].deleted == s.dbs[k].deleted { RelAt(t, s, k); }
    assert LiveRowIDs(t, subject) == LiveIDs(s.dbs, subject);
  }

  lemma SlotsRel(t: Tables, s: StoreState, slots: map<string, Slot>)
    requires Rel(t, s)
    ensures Rel(t.(slots := slots), s.(slots := slots))
  {
    var t' := t.(slots := slots);
    forall k | k in s.dbs ensures RelKey(t', k, s.dbs[k]) { RelAt(t, s, k); }
  }

  lemma ClaimRel(t: Tables, s: StoreState, q: ClaimRequest)
    requires Rel(t, s)
    ensures PgClaim(t, q).1 == ClaimStep(s, q).1 && Rel(PgClaim(t, q).0, ClaimStep(s, q).0)
  {
    var slots := s.slots[q.owner := Slot(q.subject, "", q.now)];
    if q.owner in s.slots {
      var subject := s.slots[q.owner].subject;
      PurgeSubjectRel(t, s, subject);
      SlotsRel(PurgeSubject(t, subject), s.(dbs := WithoutSubject(s.dbs, subject)), slots);
    } else {
      SlotsRel(t, s, slots);
    }
  }

  lemma DeleteSlotRel(t: Tables, s: StoreState, owner: string, subject: string)
    requires Rel(t, s)
    ensures PgDeleteSlot(t, owner, subject).1 == DeleteSlotStep(s, owner, subject).1
    ensures Rel(PgDeleteSlot(t, owner, subject).0, DeleteSlotStep(s, owner, subject).0)
  {
    PurgeSubjectRel(t, s, subject);
    SlotsRel(PurgeSubject(t, subject), s.(dbs := WithoutSubject(s.dbs, subject)), s.slots - {owner});
  }

  lemma LabelRel(t: Tables, s: StoreState, owner: string, subject: string, text: string)
    requires Rel(t, s)
    ensures PgLabel(t, owner, subject, text).1 == LabelStep(s, owner, subject, text).1
    ensures Rel(PgLabel(t, owner, subject, text).0, LabelStep(s, owner, subject, text).0)
  {
    if owner in s.slots { SlotsRel(t, s, s.slots[owner := s.slots[owner].(labelText := text)]); }
  }

  // ---- DeleteUnused ----

  lemma UnusedRel(t: Tables, s: StoreState, cutoff: int, k: Key)
    requires Rel(t, s)
    ensures UnusedRow(t, cutoff, k) <==> Unused(s, cutoff, k)
    ensures k in s.dbs && !s.dbs[k].deleted ==> t.databases[k].leaseExpires == Some(s.dbs[k].expiresAt)
  {
    if k in s.dbs { RelAt(t, s, k); }
  }

  /** Both stores may choose the same databases. */
  lemma LegalRel(t: Tables, s: StoreState, cutoff: int, limit: nat, chosen: seq<Key>)
    requires Rel(t, s)
    ensures UnusedDatabases(t, cutoff, limit, chosen) <==> OldestUnused(s, cutoff, limit, chosen)
  {
    forall k ensures UnusedRow(t, cutoff, k) <==> Unused(s, cutoff, k)
             ensures k in s.dbs && !s.dbs[k].deleted ==> t.databases[k].leaseExpires == Some(s.dbs[k].expiresAt)
    {
      UnusedRel(t, s, cutoff, k);
    }
  }

  lemma SweepRowRel(t: Tables, s: StoreState, cutoff: int, k: Key)
    requires Rel(t, s) && Unused(s, cutoff, k) && s.dbs[k].state.version < MAX63 && s.dbs[k].lease.epoch < MAX63
    ensures SweepRow(t, cutoff, k).Some? && Rel(SweepRow(t, cutoff, k).value, SweepOne(s, k))
  {
    UnusedRel(t, s, cutoff, k);
    PurgeRel(t, s, {k});
    RemoveRel(t, s, k);
  }

  lemma {:induction false} SweepRowsRel(t: Tables, s: StoreState, cutoff: int, chosen: seq<Key>)
    requires Rel(t, s) && Roomy(s) && Distinct(chosen)
    requires forall k :: k in chosen ==> k in s.dbs && Unused(s, cutoff, k)
    ensures SweepRows(t, cutoff, chosen).1 == chosen && !SweepRows(t, cutoff, chosen).2
    ensures Rel(SweepRows(t, cutoff, chosen).0, SweepAll(s, chosen))
  {
    if chosen != [] {
      var init, k := chosen[..|chosen| - 1], chosen[|chosen| - 1];
      SweepRowsRel(t, s, cutoff, init);
      SweepAllIsSweepDbs(s, init);
      var t', s' := SweepRows(t, cutoff, init).0, SweepAll(s, init);
      assert k !in init;
      assert Unused(s, cutoff, k);
      assert s'.dbs[k] == s.dbs[k];
      UnusedRel(t', s', cutoff, k);
      SweepRowRel(t', s', cutoff, k);
      assert init + [k] == chosen;
    }
  }

  lemma ReleaseSlotsRel(t: Tables, s: StoreState, cutoff: int)
    requires Rel(t, s)
    ensures Rel(ReleaseUnusedSlots(t, cutoff), s.(slots := KeptSlots(s.slots, s.dbs, cutoff)))
  {
    forall k | k in s.dbs ensures t.databases[k].deleted == s.dbs[k].deleted { RelAt(t, s, k); }
    assert ReleaseUnusedSlots(t, cutoff).slots == KeptSlots(s.slots, s.dbs, cutoff);
    SlotsRel(t, s, KeptSlots(s.slots, s.dbs, cutoff));
  }

  lemma DeleteUnusedRel(t: Tables, s: StoreState, cutoff: int, chosen: seq<Key>)
    requires Rel(t, s) && Roomy(s) && Distinct(chosen)
    requires forall k :: k in chosen ==> k in s.dbs && Unused(s, cutoff, k)
    ensures PgDeleteUnused(t, cutoff, chosen).1 == Keys(chosen)
    ensures Rel(PgDeleteUnused(t, cutoff, chosen).0, SweepStep(s, cutoff, chosen))
  {
    SweepRowsRel(t, s, cutoff, chosen);
    SweepAllIsSweepDbs(s, chosen);
    ReleaseSlotsRel(SweepRows(t, cutoff, chosen).0, SweepAll(s, chosen), cutoff);
  }

  // ---- every call, every run ----

  lemma DatabaseCallRel(t: Tables, s: StoreState, e: Event)
    requires Rel(t, s) && Roomy(s) && Fits(e) && OnDatabase(e)
    ensures PgStep(t, e).1 == Step(s, e).1 && Rel(PgStep(t, e).0, Step(s, e).0)
  {
    match e
    case Open(q, id) => if !LockedOut(s, q) { OpenRel(t, s, q, id); }
    case Fetch(k, version, first, count) =>
      PutSame(s.dbs, k);
      if k in s.dbs { RelAt(t, s, k); FetchKeyRel(t, k, s.dbs[k], version, first, count); }
    case Commit(q) => CommitRel(t, s, q);
    case Changes(k, from) =>
      PutSame(s.dbs, k);
      if k in s.dbs { RelAt(t, s, k); ChangesKeyRel(t, k, s.dbs[k], from); }
    case Renew(k, epoch, now, ttl) => RenewRel(t, s, k, epoch, now, ttl);
    case Release(k, epoch) => ReleaseRel(t, s, k, epoch);
    case Delete(q) => DeleteRel(t, s, q);
  }

  lemma SlotCallRel(t: Tables, s: StoreState, e: Event)
    requires Rel(t, s) && Roomy(s) && Legal(s, e) && Fits(e) && !OnDatabase(e)
    ensures PgLegal(t, e)
    ensures PgStep(t, e).1 == Step(s, e).1 && Rel(PgStep(t, e).0, Step(s, e).0)
  {
    match e
    case DeleteUnused(cutoff, limit, chosen) =>
      LegalRel(t, s, cutoff, limit, chosen);
      DeleteUnusedRel(t, s, cutoff, chosen);
    case GetSlot(owner) =>
    case ClaimSlot(q) => ClaimRel(t, s, q);
    case SetSlotLabel(owner, subject, text) => LabelRel(t, s, owner, subject, text);
    case DeleteSlot(owner, subject) => DeleteSlotRel(t, s, owner, subject);
  }

  /** Every call gives the same answer in both stores and keeps the relation. */
  lemma CallRel(t: Tables, s: StoreState, e: Event)
    requires Rel(t, s) && Roomy(s) && Legal(s, e) && Fits(e)
    ensures PgLegal(t, e)
    ensures PgStep(t, e).1 == Step(s, e).1 && Rel(PgStep(t, e).0, Step(s, e).0)
  {
    if OnDatabase(e) { DatabaseCallRel(t, s, e); } else { SlotCallRel(t, s, e); }
  }

  /** A run of the PostgreSQL store. */
  datatype PgRun = PgRun(tables: seq<Tables>, events: seq<Event>, replies: seq<Reply>)

  ghost predicate PgHistory(pg: PgRun) {
    && |pg.tables| == |pg.events| + 1 == |pg.replies| + 1 && pg.tables[0] == EMPTY_TABLES
    && forall i {:trigger Turn(i)} :: 0 <= i < |pg.events| ==>
         && PgLegal(pg.tables[i], pg.events[i])
         && PgStep(pg.tables[i], pg.events[i]) == (pg.tables[i + 1], pg.replies[i])
  }

  lemma PgStepAt(pg: PgRun, i: nat)
    requires PgHistory(pg) && i < |pg.events|
    ensures PgLegal(pg.tables[i], pg.events[i])
    ensures PgStep(pg.tables[i], pg.events[i]) == (pg.tables[i + 1], pg.replies[i])
  {
    assert Turn(i);
  }

  lemma GoodIsRoomy(s: StoreState, n: nat)
    requires GoodState(s, n) && n < MAX63
    ensures Roomy(s)
  {}

  /** Whatever the PostgreSQL store may answer, the memory store may answer too. */
  lemma PgLegalIsLegal(t: Tables, s: StoreState, e: Event)
    requires Rel(t, s) && Fits(e) && PgLegal(t, e)
    ensures Legal(s, e)
  {
    if e.DeleteUnused? { LegalRel(t, s, e.cutoff, e.limit, e.chosen); }
  }

  lemma OneCall(t: Tables, s: StoreState, e: Event, n: nat, t': Tables, reply: Reply)
    requires Rel(t, s) && Fits(e) && PgLegal(t, e) && PgStep(t, e) == (t', reply) && GoodState(s, n) && n < MAX63
    ensures Legal(s, e) && Step(s, e).1 == reply && Rel(t', Step(s, e).0)
  {
    GoodIsRoomy(s, n);
    PgLegalIsLegal(t, s, e);
    CallRel(t, s, e);
  }

  /** The memory store could have made this run: the same calls with the same answers, and every state in between is
      the one that the tables represent. */
  ghost predicate Shadows(run: Run, pg: PgRun) {
    && History(run) && run.events == pg.events && run.replies == pg.replies && |pg.tables| == |run.states|
    && forall i {:trigger Turn(i)} :: 0 <= i < |run.states| ==> Rel(pg.tables[i], run.states[i])
  }

  lemma ShadowAt(run: Run, pg: PgRun, i: nat)
    requires Shadows(run, pg) && i < |run.states|
    ensures Rel(pg.tables[i], run.states[i])
  {
    assert Turn(i);
  }

  const PG_START := PgRun([EMPTY_TABLES], [], [])

  lemma StartShadows()
    ensures PgHistory(PG_START) && Shadows(START, PG_START)
  {
    assert Rel(PG_START.tables[0], START.states[0]);
  }

  function PgExtend(pg: PgRun, e: Event, t: Tables, reply: Reply): PgRun {
    PgRun(pg.tables + [t], pg.events + [e], pg.replies + [reply])
  }

  lemma ExtendPg(pg: PgRun, e: Event, t: Tables, reply: Reply)
    requires PgHistory(pg) && PgLegal(pg.tables[|pg.events|], e) && PgStep(pg.tables[|pg.events|], e) == (t, reply)
    ensures PgHistory(PgExtend(pg, e, t, reply))
  {
    var longer := PgExtend(pg, e, t, reply);
    forall i | 0 <= i < |longer.events|
      ensures PgLegal(longer.tables[i], longer.events[i])
      ensures PgStep(longer.tables[i], longer.events[i]) == (longer.tables[i + 1], longer.replies[i])
    {
      if i < |pg.events| { PgStepAt(pg, i); }
    }
  }

  /** One more call. */
  lemma ExtendShadow(run: Run, pg: PgRun, e: Event, t: Tables, reply: Reply)
    requires Shadows(run, pg) && |pg.events| < MAX63 && Fits(e)
    requires PgLegal(pg.tables[|pg.events|], e) && PgStep(pg.tables[|pg.events|], e) == (t, reply)
    ensures Legal(Last(run), e) && Step(Last(run), e).1 == reply
    ensures Shadows(Extend(run, e, Step(Last(run), e).0, reply), PgExtend(pg, e, t, reply))
  {
    LastCall(run, pg, e, t, reply);
    var after := Step(Last(run), e).0;
    ExtendHistory(run, e, after, reply);
    ShadowsNext(run, pg, e, t, reply, after);
  }

  lemma LastCall(run: Run, pg: PgRun, e: Event, t: Tables, reply: Reply)
    requires Shadows(run, pg) && |pg.events| < MAX63 && Fits(e)
    requires PgLegal(pg.tables[|pg.events|], e) && PgStep(pg.tables[|pg.events|], e) == (t, reply)
    ensures Legal(Last(run), e) && Step(Last(run), e).1 == reply && Rel(t, Step(Last(run), e).0)
  {
    LastStates(run, pg);
    OneCall(pg.tables[|pg.events|], Last(run), e, |pg.events|, t, reply);
  }

  lemma LastStates(run: Run, pg: PgRun)
    requires Shadows(run, pg)
    ensures Rel(pg.tables[|pg.events|], Last(run)) && GoodState(Last(run), |pg.events|)
  {
    ShadowAt(run, pg, |pg.events|);
    RunGood(run, |pg.events|);
  }

  lemma ShadowsNext(run: Run, pg: PgRun, e: Event, t: Tables, reply: Reply, after: StoreState)
    requires Shadows(run, pg) && Rel(t, after) && History(Extend(run, e, after, reply))
    ensures Shadows(Extend(run, e, after, reply), PgExtend(pg, e, t, reply))
  {
    var longer, pg' := Extend(run, e, after, reply), PgExtend(pg, e, t, reply);
    forall i | 0 <= i < |longer.states| ensures Rel(pg'.tables[i], longer.states[i]) {
      if i < |run.states| { ShadowAt(run, pg, i); }
    }
  }

  /** What the columns can carry, for a whole run. */
  ghost predicate Small(pg: PgRun) {
    |pg.events| <= MAX63 && forall i :: 0 <= i < |pg.events| ==> Fits(pg.events[i])
  }

  function Prefix(pg: PgRun, n: nat): PgRun
    requires n <= |pg.events| && |pg.tables| == |pg.events| + 1 == |pg.replies| + 1
  {
    PgRun(pg.tables[..n + 1], pg.events[..n], pg.replies[..n])
  }

  lemma PrefixNext(pg: PgRun, n: nat)
    requires 0 < n <= |pg.events| && |pg.tables| == |pg.events| + 1 == |pg.replies| + 1
    ensures Prefix(pg, n) == PgExtend(Prefix(pg, n - 1), pg.events[n - 1], pg.tables[n], pg.replies[n - 1])
    ensures Prefix(pg, n - 1).tables[n - 1] == pg.tables[n - 1] && |Prefix(pg, n - 1).events| == n - 1
  {
  }

  lemma {:induction false} RefinesPrefix(pg: PgRun, n: nat) returns (run: Run)
    requires PgHistory(pg) && Small(pg) && n <= |pg.events|
    ensures Shadows(run, Prefix(pg, n))
  {
    if n == 0 {
      run := START;
      assert Prefix(pg, 0) == PG_START;
      StartShadows();
    } else {
      var before := RefinesPrefix(pg, n - 1);
      PrefixNext(pg, n);
      PgStepAt(pg, n - 1);
      run := NextRun(before, Prefix(pg, n - 1), pg.events[n - 1], pg.tables[n], pg.replies[n - 1]);
    }
  }

  lemma NextRun(run: Run, pg: PgRun, e: Event, t: Tables, reply: Reply) returns (longer: Run)
    requires Shadows(run, pg) && |pg.events| < MAX63 && Fits(e)
    requires PgLegal(pg.tables[|pg.events|], e) && PgStep(pg.tables[|pg.events|], e) == (t, reply)
    ensures Shadows(longer, PgExtend(pg, e, t, reply))
  {
    ExtendShadow(run, pg, e, t, reply);
    longer := Extend(run, e, Step(Last(run), e).0, reply);
  }

  /** Every run of the PostgreSQL store is a run of the memory store: with the same calls it gives the same answers, and
      its tables represent the memory store's state at every point. */
  lemma PostgresRefinesMemory(pg: PgRun) returns (run: Run)
    requires PgHistory(pg) && Small(pg)
    ensures Shadows(run, pg)
  {
    run := RefinesPrefix(pg, |pg.events|);
    assert Prefix(pg, |pg.events|) == pg;
  }
}
