/** What every run of the store keeps. A run is a list of calls from any number of clients, in the order in which the
    store's lock serializes them, with the states in between. */
module Runs {
  import opened Basics
  import opened Store
  import opened Memory

  /** `states[i]` is the state before call `events[i]`, `replies[i]` its answer. */
  datatype Run = Run(states: seq<StoreState>, events: seq<Event>, replies: seq<Reply>)

  /** Marks a position, so that StepAt unfolds the step there and nowhere else. */
  ghost predicate Turn(i: int) { true }

  ghost predicate IsRun(run: Run) {
    && |run.states| == |run.events| + 1 == |run.replies| + 1
    && forall i {:trigger Turn(i)} :: 0 <= i < |run.events| ==>
         && Legal(run.states[i], run.events[i])
         && Step(run.states[i], run.events[i]) == (run.states[i + 1], run.replies[i])
  }

  /** A run from the empty store, too short for a uint64 counter to wrap. */
  ghost predicate History(run: Run) {
    IsRun(run) && run.states[0] == EMPTY && |run.events| <= MAX64
  }

  lemma StepAt(run: Run, i: nat)
    requires IsRun(run) && i < |run.events|
    ensures Legal(run.states[i], run.events[i])
    ensures Step(run.states[i], run.events[i]) == (run.states[i + 1], run.replies[i])
  {
    assert Turn(i);
  }

  const START := Run([EMPTY], [], [])

  function Last(run: Run): StoreState
    requires run.states != []
  {
    run.states[|run.states| - 1]
  }

  /** The run that goes on with call `e`, answered with `reply`. */
  function Extend(run: Run, e: Event, after: StoreState, reply: Reply): Run {
    Run(run.states + [after], run.events + [e], run.replies + [reply])
  }

  lemma ExtendAt(run: Run, e: Event, after: StoreState, reply: Reply, i: nat)
    requires IsRun(run) && Legal(Last(run), e) && Step(Last(run), e) == (after, reply) && i <= |run.events|
    ensures var longer := Extend(run, e, after, reply);
            && Legal(longer.states[i], longer.events[i])
            && Step(longer.states[i], longer.events[i]) == (longer.states[i + 1], longer.replies[i])
  {
    var longer := Extend(run, e, after, reply);
    if i < |run.events| {
      StepAt(run, i);
      assert longer.states[i] == run.states[i] && longer.states[i + 1] == run.states[i + 1];
      assert longer.events[i] == run.events[i] && longer.replies[i] == run.replies[i];
    } else {
      assert longer.states[i] == Last(run) && longer.states[i + 1] == after;
      assert longer.events[i] == e && longer.replies[i] == reply;
    }
  }

  lemma ExtendRun(run: Run, e: Event, after: StoreState, reply: Reply)
    requires IsRun(run) && Legal(Last(run), e) && Step(Last(run), e) == (after, reply)
    ensures IsRun(Extend(run, e, after, reply)) && Last(Extend(run, e, after, reply)) == after
  {
    var longer := Extend(run, e, after, reply);
    forall i | 0 <= i < |longer.events|
      ensures && Legal(longer.states[i], longer.events[i])
              && Step(longer.states[i], longer.events[i]) == (longer.states[i + 1], longer.replies[i])
    {
      ExtendAt(run, e, after, reply, i);
    }
  }

  lemma ExtendHistory(run: Run, e: Event, after: StoreState, reply: Reply)
    requires History(run) && |run.events| < MAX64
    requires Legal(Last(run), e) && Step(Last(run), e) == (after, reply)
    ensures History(Extend(run, e, after, reply)) && Last(Extend(run, e, after, reply)) == after
  {
    ExtendRun(run, e, after, reply);
  }

  /** The same, as a value. */
  lemma Extended(run: Run, e: Event, after: StoreState, reply: Reply) returns (longer: Run)
    requires History(run) && |run.events| < MAX64
    requires Legal(Last(run), e) && Step(Last(run), e) == (after, reply)
    ensures History(longer) && longer == Extend(run, e, after, reply) && Last(longer) == after
  {
    ExtendHistory(run, e, after, reply);
    longer := Extend(run, e, after, reply);
  }

  /** The key's record exists from state `i` to state `j`: no slot claim, slot deletion or sweep purges it. */
  ghost predicate Kept(run: Run, k: Key, i: nat, j: nat)
    requires i <= j < |run.states|
  {
    forall m :: i <= m <= j ==> k in run.states[m].dbs
  }

  // ---- the record invariant ----

  ghost predicate GoodLog(db: Record) {
    && |db.changes| <= CHANGE_WINDOW && |db.changes| <= db.state.version
    && forall n :: 0 <= n < |db.changes| ==> db.changes[n].version == db.state.version - |db.changes| + 1 + n
  }

  ghost predicate GoodBlocks(blocks: map<u64, Bytes>, pageSize: u32, pageCount: u64) {
    forall i :: i in blocks ==> i < pageCount && |blocks[i]| == pageSize
  }

  ghost predicate Good(db: Record) {
    && ValidPageSize(db.state.pageSize)
    && GoodBlocks(db.blocks, db.state.pageSize, db.state.pageCount)
    && GoodLog(db)
    && (db.deleted ==> db.holder.None? && db.blocks == map[] && db.changes == [])
    && (db.deleted ==> db.state.pageCount == 0 && db.state.lastCommitID == [])
  }

  ghost predicate GoodState(s: StoreState, n: nat) {
    forall k :: k in s.dbs ==> Good(s.dbs[k]) && s.dbs[k].state.version <= n && s.dbs[k].lease.epoch <= n
  }

  lemma {:induction false} WriteBlocksDomain(m: map<u64, Bytes>, blocks: seq<Block>)
    ensures WriteBlocks(m, blocks).Keys == m.Keys + Indexes(blocks)
    ensures forall i :: i in m && i !in Indexes(blocks) ==> WriteBlocks(m, blocks)[i] == m[i]
    ensures forall i :: i in Indexes(blocks) ==> Block(i, WriteBlocks(m, blocks)[i]) in blocks
  {
    if blocks != [] {
      var init, last := blocks[..|blocks| - 1], blocks[|blocks| - 1];
      WriteBlocksDomain(m, init);
      assert blocks == init + [last];
      assert Indexes(blocks) == Indexes(init) + {last.index};
    }
  }

  /** Whether the call is a commit that the store applies to `k`, not one it refuses or has applied before. */
  ghost predicate Applies(s: StoreState, e: Event, k: Key) {
    && e.Commit? && e.commit.key == k && k in s.dbs
    && Holds(s.dbs[k], e.commit.leaseEpoch)
    && !Repeats(s.dbs[k], e.commit)
    && s.dbs[k].state.version == e.commit.baseVersion
    && ValidCommit(s.dbs[k].state.pageSize, e.commit)
  }

  predicate SameContent(a: Record, b: Record) {
    a.deleted == b.deleted && a.state == b.state && a.blocks == b.blocks && a.changes == b.changes
  }

  predicate Revives(a: Record, b: Record) {
    && a.deleted && !b.deleted && ValidPageSize(b.state.pageSize)
    && b.state == a.state.(pageSize := b.state.pageSize) && b.blocks == a.blocks && b.changes == a.changes
  }

  /** The ways in which one call can change a record: apply a commit; extend or release the lease; grant a lease;
      create the deleted database anew, with a lease; delete the database. */
  ghost predicate Moves(db: Record, db': Record, applied: Option<CommitRequest>) {
    match applied
    case Some(q) => db' == Apply(db, q)
    case None =>
      || (SameContent(db, db') && db'.lease == db.lease && (db'.holder == db.holder || db'.holder.None?))
      || (SameContent(db, db') && !db.deleted && db'.lease.epoch == Inc(db.lease.epoch))
      || (Revives(db, db') && db'.lease.epoch == Inc(db.lease.epoch))
      || (!db.deleted && db' == Remove(db))
  }

  ghost function AppliedBy(s: StoreState, e: Event, k: Key): Option<CommitRequest> {
    if Applies(s, e, k) then Some(e.commit) else None
  }

  lemma CommitMoves(s: StoreState, q: CommitRequest)
    requires q.key in s.dbs && Good(s.dbs[q.key])
    ensures var s' := Step(s, Commit(q)).0;
            q.key in s'.dbs && Moves(s.dbs[q.key], s'.dbs[q.key], AppliedBy(s, Commit(q), q.key))
  {
    CommitErrorNone(s.dbs[q.key].state.pageSize, q);
  }

  lemma OpenMoves(s: StoreState, q: OpenRequest, id: Bytes)
    requires q.key in s.dbs && Good(s.dbs[q.key])
    ensures var s' := Step(s, Open(q, id)).0;
            q.key in s'.dbs && Moves(s.dbs[q.key], s'.dbs[q.key], None)
  {
  }

  lemma StepMoves(s: StoreState, e: Event, k: Key)
    requires Legal(s, e) && k in s.dbs && Good(s.dbs[k]) && k in Step(s, e).0.dbs
    ensures Moves(s.dbs[k], Step(s, e).0.dbs[k], AppliedBy(s, e, k))
  {
    if OnDatabase(e) && KeyOf(e) == k {
      match e
      case Commit(q) => CommitMoves(s, q);
      case Open(q, id) => OpenMoves(s, q, id);
      case _ => LeaseMoves(s, e);
    } else {
      OtherMoves(s, e, k);
    }
  }

  lemma LeaseMoves(s: StoreState, e: Event)
    requires OnDatabase(e) && !e.Commit? && !e.Open? && KeyOf(e) in s.dbs
    ensures var k, s' := KeyOf(e), Step(s, e).0;
            k in s'.dbs && Moves(s.dbs[k], s'.dbs[k], None)
  {
  }

  lemma OtherMoves(s: StoreState, e: Event, k: Key)
    requires Legal(s, e) && k in s.dbs && k in Step(s, e).0.dbs && (OnDatabase(e) ==> KeyOf(e) != k)
    ensures Moves(s.dbs[k], Step(s, e).0.dbs[k], None)
  {
  }

  lemma StepCreates(s: StoreState, e: Event, k: Key)
    requires Legal(s, e) && k !in s.dbs && k in Step(s, e).0.dbs
    ensures e.Open? && e.open.key == k && e.open.create
    ensures SameContent(Step(s, e).0.dbs[k], Fresh(e.open.pageSize)) && ValidPageSize(e.open.pageSize)
    ensures Step(s, e).0.dbs[k].lease.epoch == 1
  {
  }

  lemma WrittenGood(blocks: map<u64, Bytes>, pageSize: u32, pageCount: u64, q: CommitRequest)
    requires GoodBlocks(blocks, pageSize, pageCount) && ValidCommit(pageSize, q)
    ensures GoodBlocks(Truncate(WriteBlocks(blocks, q.blocks), q.pageCount), pageSize, q.pageCount)
  {
    WriteBlocksDomain(blocks, q.blocks);
    var written := WriteBlocks(blocks, q.blocks);
    forall i | i in written ensures |written[i]| == pageSize {
      if i in Indexes(q.blocks) {
        var n :| 0 <= n < |q.blocks| && q.blocks[n] == Block(i, written[i]);
      }
    }
  }

  /** Appending the next version and trimming keeps the log a gap-free run of versions that ends at the current one. */
  lemma TrimGood(db: Record, blocks: seq<u64>, db': Record)
    requires GoodLog(db) && db.state.version < MAX64
    requires db'.state.version == db.state.version + 1
    requires db'.changes == Trim(db.changes + [Change(db.state.version + 1, blocks)])
    ensures GoodLog(db')
  {
    var log := db.changes + [Change(db.state.version + 1, blocks)];
    assert forall n :: 0 <= n < |log| ==> log[n].version == db'.state.version - |log| + 1 + n;
  }

  lemma ApplyGood(db: Record, q: CommitRequest)
    requires Good(db) && !db.deleted && ValidCommit(db.state.pageSize, q) && db.state.version < MAX64
    ensures Good(Apply(db, q))
  {
    WrittenGood(db.blocks, db.state.pageSize, db.state.pageCount, q);
    TrimGood(db, SortedIndexes(Indexes(q.blocks)), Apply(db, q));
  }

  lemma StepGood(s: StoreState, e: Event, n: nat)
    requires Legal(s, e) && GoodState(s, n) && n < MAX64
    ensures GoodState(Step(s, e).0, n + 1)
  {
    var s' := Step(s, e).0;
    forall k | k in s'.dbs
      ensures Good(s'.dbs[k]) && s'.dbs[k].state.version <= n + 1 && s'.dbs[k].lease.epoch <= n + 1
    {
      if k in s.dbs {
        StepMoves(s, e, k);
        if Applies(s, e, k) { ApplyGood(s.dbs[k], e.commit); }
      } else {
        StepCreates(s, e, k);
      }
    }
  }

  /** Every reachable state is good, and after `i` calls no version or epoch exceeds `i`. */
  lemma {:induction false} RunGood(run: Run, i: nat)
    requires History(run) && i <= |run.events|
    ensures GoodState(run.states[i], i)
  {
    if i > 0 {
      RunGood(run, i - 1);
      StepAt(run, i - 1);
      StepGood(run.states[i - 1], run.events[i - 1], i - 1);
    }
  }

  // ---- one key's part of a run ----

  /** The records of `k` in the states `i` to `j`. */
  ghost function Records(run: Run, k: Key, i: nat, j: nat): seq<Record>
    requires i <= j < |run.states| && Kept(run, k, i, j)
  {
    seq(j - i + 1, m requires 0 <= m <= j - i => run.states[i + m].dbs[k])
  }

  /** The commits that the calls `i` to `j - 1` applied to `k`, None for every other call. */
  ghost function Commits(run: Run, k: Key, i: nat, j: nat): seq<Option<CommitRequest>>
    requires i <= j <= |run.events| && |run.states| == |run.events| + 1
  {
    seq(j - i, m requires 0 <= m < j - i => AppliedBy(run.states[i + m], run.events[i + m], k))
  }

  /** A move of a record whose counters have not wrapped. */
  ghost predicate Lives(db: Record, db': Record, applied: Option<CommitRequest>) {
    db.state.version < MAX64 && db.lease.epoch < MAX64 && Moves(db, db', applied)
  }

  /** A record changes by moves only, is good throughout, and its counters have not wrapped. */
  ghost predicate Life(recs: seq<Record>, commits: seq<Option<CommitRequest>>) {
    && |recs| == |commits| + 1
    && (forall m {:trigger Turn(m)} :: 0 <= m < |recs| ==> Good(recs[m]))
    && (forall m {:trigger Turn(m)} :: 0 <= m < |commits| ==> Lives(recs[m], recs[m + 1], commits[m]))
  }

  lemma RecordGood(run: Run, k: Key, i: nat)
    requires History(run) && i <= |run.events| && k in run.states[i].dbs
    ensures Good(run.states[i].dbs[k])
  {
    RunGood(run, i);
  }

  lemma RecordMoves(run: Run, k: Key, i: nat)
    requires History(run) && i < |run.events| && k in run.states[i].dbs && k in run.states[i + 1].dbs
    ensures Lives(run.states[i].dbs[k], run.states[i + 1].dbs[k], AppliedBy(run.states[i], run.events[i], k))
  {
    RunGood(run, i);
    StepAt(run, i);
    StepMoves(run.states[i], run.events[i], k);
  }

  lemma LifeOf(run: Run, k: Key, i: nat, j: nat)
    requires History(run) && i <= j <= |run.events| && Kept(run, k, i, j)
    ensures Life(Records(run, k, i, j), Commits(run, k, i, j))
  {
    var recs, commits := Records(run, k, i, j), Commits(run, k, i, j);
    forall m | 0 <= m < |recs| ensures Good(recs[m]) {
      RecordGood(run, k, i + m);
    }
    forall m | 0 <= m < |commits| ensures Lives(recs[m], recs[m + 1], commits[m]) {
      assert recs[m] == run.states[i + m].dbs[k] && recs[m + 1] == run.states[i + m + 1].dbs[k];
      assert commits[m] == AppliedBy(run.states[i + m], run.events[i + m], k);
      RecordMoves(run, k, i + m);
    }
  }

  lemma GoodAt(recs: seq<Record>, commits: seq<Option<CommitRequest>>, m: nat)
    requires Life(recs, commits) && m < |recs|
    ensures Good(recs[m])
  {
    assert Turn(m);
  }

  lemma MoveAt(recs: seq<Record>, commits: seq<Option<CommitRequest>>, m: nat)
    requires Life(recs, commits) && m < |commits|
    ensures Good(recs[m]) && Good(recs[m + 1]) && Moves(recs[m], recs[m + 1], commits[m])
    ensures recs[m].state.version < MAX64 && recs[m].lease.epoch < MAX64
  {
    assert Turn(m) && Turn(m + 1);
    assert Lives(recs[m], recs[m + 1], commits[m]);
  }

  /** Epoch and version never decrease in the life of a record. */
  lemma {:induction false} LifeGrows(recs: seq<Record>, commits: seq<Option<CommitRequest>>, i: nat, j: nat)
    requires Life(recs, commits) && i <= j < |recs|
    ensures recs[i].lease.epoch <= recs[j].lease.epoch && recs[i].state.version <= recs[j].state.version
    decreases j
  {
    if i < j {
      LifeGrows(recs, commits, i, j - 1);
      MoveAt(recs, commits, j - 1);
    }
  }
}
