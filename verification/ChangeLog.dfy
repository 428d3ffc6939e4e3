/** What a change set promises a client that catches up a local copy: Store.Changes against the commits of the run. */
module ChangeLog {
  import opened Basics
  import opened Store
  import opened Memory
  import opened Runs
  import opened Fencing

  /** The log holds every version after `from`. */
  predicate Covers(db: Record, from: u64) {
    db.state.version - from <= |db.changes|
  }

  /** The blocks that the first `j` commits wrote. */
  ghost function Written(commits: seq<Option<CommitRequest>>, j: nat): set<u64>
    requires j <= |commits|
  {
    if j == 0 then {}
    else Written(commits, j - 1) + (if commits[j - 1].Some? then Indexes(commits[j - 1].value.blocks) else {})
  }

  /** The file reached beyond `index` in every record up to the `j`th. */
  ghost predicate Stayed(recs: seq<Record>, index: u64, j: nat)
    requires j < |recs|
  {
    forall m :: 0 <= m <= j ==> index < recs[m].state.pageCount
  }

  lemma WrittenAppend(log: seq<Change>, entry: Change, from: u64)
    requires entry.version > from
    ensures WrittenAfter(log + [entry], from) == WrittenAfter(log, from) + (set x | x in entry.blocks)
  {
    var longer := log + [entry];
    assert longer[|log|] == entry;
    assert forall n :: 0 <= n < |log| ==> longer[n] == log[n];
  }

  lemma WrittenDrop(log: seq<Change>, cut: nat, from: u64)
    requires cut <= |log| && forall n :: 0 <= n < cut ==> log[n].version <= from
    ensures WrittenAfter(log[cut..], from) == WrittenAfter(log, from)
  {
    forall x | x in WrittenAfter(log, from) ensures x in WrittenAfter(log[cut..], from) {
      var n :| 0 <= n < |log| && log[n].version > from && x in log[n].blocks;
      assert log[cut..][n - cut] == log[n];
    }
    assert forall n :: 0 <= n < |log[cut..]| ==> log[cut..][n] == log[n + cut];
  }

  lemma TrimWritten(log: seq<Change>, entry: Change, from: u64)
    requires |log| <= CHANGE_WINDOW && entry.version > from
    requires |log| == CHANGE_WINDOW ==> log[0].version <= from
    ensures WrittenAfter(Trim(log + [entry]), from) == WrittenAfter(log, from) + (set x | x in entry.blocks)
  {
    WrittenAppend(log, entry, from);
    if |log| == CHANGE_WINDOW { WrittenDrop(log + [entry], 1, from); }
  }

  lemma ApplyLog(db: Record, q: CommitRequest, from: u64, db': Record)
    requires GoodLog(db) && from <= db.state.version < MAX64
    requires db'.state.version == db.state.version + 1 && Covers(db', from)
    requires db'.changes == Trim(db.changes + [Change(db.state.version + 1, SortedIndexes(Indexes(q.blocks)))])
    ensures Covers(db, from)
    ensures WrittenAfter(db'.changes, from) == WrittenAfter(db.changes, from) + Indexes(q.blocks)
  {
    var touched := SortedIndexes(Indexes(q.blocks));
    TrimWritten(db.changes, Change(db.state.version + 1, touched), from);
    assert (set x | x in touched) == Indexes(q.blocks);
  }

  lemma ApplyRead(db: Record, q: CommitRequest, index: u64)
    requires index !in Indexes(q.blocks)
    ensures Read(Apply(db, q), index) == if index < q.pageCount then Read(db, index) else Zeros(db.state.pageSize)
  {
    WriteBlocksDomain(db.blocks, q.blocks);
  }

  /** One move under a log that still covers `from`. */
  lemma MoveCovers(db: Record, db': Record, applied: Option<CommitRequest>, from: u64)
    requires Good(db) && Moves(db, db', applied) && from <= db.state.version < MAX64 && Covers(db', from)
    ensures Covers(db, from)
    ensures !db.deleted ==> !db'.deleted && db'.state.pageSize == db.state.pageSize
  {
  }

  lemma MoveListed(db: Record, db': Record, applied: Option<CommitRequest>, from: u64, index: u64)
    requires Good(db) && Moves(db, db', applied) && from <= db.state.version < MAX64 && Covers(db', from) && !db.deleted
    ensures index in WrittenAfter(db'.changes, from) <==>
            index in WrittenAfter(db.changes, from) || (applied.Some? && index in Indexes(applied.value.blocks))
  {
    if applied.Some? {
      CommitListed(db, db', applied.value, from, index);
    } else {
      KeepsLog(db, db', from);
    }
  }

  lemma CommitListed(db: Record, db': Record, q: CommitRequest, from: u64, index: u64)
    requires GoodLog(db) && db' == Apply(db, q) && from <= db.state.version < MAX64 && Covers(db', from)
    ensures index in WrittenAfter(db'.changes, from) <==>
            index in WrittenAfter(db.changes, from) || index in Indexes(q.blocks)
  {
    ApplyLog(db, q, from, db');
  }

  lemma KeepsLog(db: Record, db': Record, from: u64)
    requires Good(db) && Moves(db, db', None) && from <= db.state.version < MAX64 && Covers(db', from) && !db.deleted
    ensures db'.changes == db.changes
  {
  }

  lemma NothingAfter(db: Record)
    requires Good(db)
    ensures WrittenAfter(db.changes, db.state.version) == {}
  {
  }

  lemma MoveReads(db: Record, db': Record, applied: Option<CommitRequest>, from: u64, index: u64)
    requires Good(db) && Moves(db, db', applied) && from <= db.state.version < MAX64 && Covers(db', from) && !db.deleted
    requires applied.Some? ==> index !in Indexes(applied.value.blocks)
    ensures Read(db', index) == if index < db'.state.pageCount then Read(db, index) else Zeros(db.state.pageSize)
  {
    if applied.Some? { ApplyRead(db, applied.value, index); }
  }

  lemma NextMove(recs: seq<Record>, commits: seq<Option<CommitRequest>>, j: nat)
    requires Life(recs, commits) && 0 < j < |recs|
    ensures Good(recs[j - 1]) && Moves(recs[j - 1], recs[j], commits[j - 1])
    ensures recs[0].state.version <= recs[j - 1].state.version < MAX64
  {
    LifeGrows(recs, commits, 0, j - 1);
    MoveAt(recs, commits, j - 1);
  }

  lemma NextCovers(recs: seq<Record>, commits: seq<Option<CommitRequest>>, j: nat)
    requires Life(recs, commits) && 0 < j < |recs| && Covers(recs[j], recs[0].state.version)
    ensures Covers(recs[j - 1], recs[0].state.version)
    ensures !recs[j - 1].deleted ==> !recs[j].deleted && recs[j].state.pageSize == recs[j - 1].state.pageSize
  {
    NextMove(recs, commits, j);
    MoveCovers(recs[j - 1], recs[j], commits[j - 1], recs[0].state.version);
  }

  lemma NextListed(recs: seq<Record>, commits: seq<Option<CommitRequest>>, j: nat, index: u64)
    requires Life(recs, commits) && 0 < j < |recs| && Covers(recs[j], recs[0].state.version) && !recs[j - 1].deleted
    ensures var from, q := recs[0].state.version, commits[j - 1];
            index in WrittenAfter(recs[j].changes, from) <==>
            index in WrittenAfter(recs[j - 1].changes, from) || (q.Some? && index in Indexes(q.value.blocks))
  {
    NextMove(recs, commits, j);
    MoveListed(recs[j - 1], recs[j], commits[j - 1], recs[0].state.version, index);
  }

  lemma NextReads(recs: seq<Record>, commits: seq<Option<CommitRequest>>, j: nat, index: u64)
    requires Life(recs, commits) && 0 < j < |recs| && Covers(recs[j], recs[0].state.version) && !recs[j - 1].deleted
    requires commits[j - 1].Some? ==> index !in Indexes(commits[j - 1].value.blocks)
    ensures Read(recs[j], index)
            == if index < recs[j].state.pageCount then Read(recs[j - 1], index) else Zeros(recs[j - 1].state.pageSize)
  {
    NextMove(recs, commits, j);
    MoveReads(recs[j - 1], recs[j], commits[j - 1], recs[0].state.version, index);
  }

  /** From a live record on, as long as the log covers its version, the database was never deleted in between. */
  lemma {:induction false} CoveredStaysLive(recs: seq<Record>, commits: seq<Option<CommitRequest>>, j: nat)
    requires Life(recs, commits) && j < |recs| && !recs[0].deleted && Covers(recs[j], recs[0].state.version)
    ensures forall m :: 0 <= m <= j ==> !recs[m].deleted && Covers(recs[m], recs[0].state.version)
    ensures recs[j].state.pageSize == recs[0].state.pageSize
  {
    if j > 0 {
      NextCovers(recs, commits, j);
      CoveredStaysLive(recs, commits, j - 1);
    }
  }

  /** The log entries after it list exactly the blocks written since. */
  lemma {:induction false} CoveredLists(recs: seq<Record>, commits: seq<Option<CommitRequest>>, j: nat, index: u64)
    requires Life(recs, commits) && j < |recs| && !recs[0].deleted && Covers(recs[j], recs[0].state.version)
    ensures index in WrittenAfter(recs[j].changes, recs[0].state.version) <==> index in Written(commits, j)
  {
    if j == 0 {
      GoodAt(recs, commits, 0);
      NothingAfter(recs[0]);
    } else {
      NextCovers(recs, commits, j);
      CoveredStaysLive(recs, commits, j - 1);
      CoveredLists(recs, commits, j - 1, index);
      NextListed(recs, commits, j, index);
    }
  }

  lemma FirstReads(db: Record, index: u64)
    requires Good(db) && index >= db.state.pageCount
    ensures Read(db, index) == Zeros(db.state.pageSize)
  {
  }

  /** A block that is not listed reads as it did then, unless the file was shorter in between; then it reads as zeros. */
  lemma {:induction false} CoveredReads(recs: seq<Record>, commits: seq<Option<CommitRequest>>, j: nat, index: u64)
    requires Life(recs, commits) && j < |recs| && !recs[0].deleted && Covers(recs[j], recs[0].state.version)
    requires index !in Written(commits, j)
    ensures Read(recs[j], index)
            == if Stayed(recs, index, j) then Read(recs[0], index) else Zeros(recs[0].state.pageSize)
  {
    if j == 0 {
      GoodAt(recs, commits, 0);
      if index >= recs[0].state.pageCount { FirstReads(recs[0], index); }
    } else {
      NextCovers(recs, commits, j);
      CoveredStaysLive(recs, commits, j - 1);
      NextReads(recs, commits, j, index);
      CoveredReads(recs, commits, j - 1, index);
      assert Stayed(recs, index, j) <==> Stayed(recs, index, j - 1) && index < recs[j].state.pageCount;
    }
  }

  lemma MoveLogLength(db: Record, db': Record, applied: Option<CommitRequest>)
    requires Good(db) && Moves(db, db', applied) && db.state.version < MAX64 && !db.deleted && !db'.deleted
    ensures |db'.changes| >= Min(CHANGE_WINDOW, |db.changes| + db'.state.version - db.state.version)
  {}

  lemma {:induction false} LogReaches(recs: seq<Record>, commits: seq<Option<CommitRequest>>, j: nat)
    requires Life(recs, commits) && j < |recs| && forall m :: 0 <= m <= j ==> !recs[m].deleted
    ensures |recs[j].changes| >= Min(CHANGE_WINDOW, recs[j].state.version - recs[0].state.version)
  {
    if j > 0 {
      LogReaches(recs, commits, j - 1);
      MoveAt(recs, commits, j - 1);
      MoveLogLength(recs[j - 1], recs[j], commits[j - 1]);
    }
  }

  // ---- the answers of a run ----

  lemma ChangesAnswer(db: Record, from: u64)
    requires Good(db) && !db.deleted && from <= db.state.version
    ensures ChangesRecord(Some(db), from).Changed?
    ensures var answer := ChangesRecord(Some(db), from).changes;
            && answer.from == from && answer.to == db.state.version && Ascending(answer.blocks, Below)
            && (answer.complete <==> Covers(db, from))
            && (answer.complete ==> forall x :: x in answer.blocks <==> x in WrittenAfter(db.changes, from))
  {}

  /** Call `j` asks for the changes of `k` since the version of state `i`. */
  ghost predicate AsksSince(run: Run, k: Key, i: nat, j: nat)
    requires IsRun(run)
  {
    && i <= j < |run.events| && Kept(run, k, i, j) && !run.states[i].dbs[k].deleted
    && run.events[j] == Changes(k, run.states[i].dbs[k].state.version)
  }

  lemma AskedRecord(run: Run, k: Key, i: nat, j: nat)
    requires History(run) && AsksSince(run, k, i, j)
    ensures run.replies[j] == ChangesRecord(Some(run.states[j].dbs[k]), run.states[i].dbs[k].state.version)
  {
    StepAt(run, j);
  }

  lemma LifeCompleteInWindow(recs: seq<Record>, commits: seq<Option<CommitRequest>>)
    requires Life(recs, commits) && !recs[0].deleted && !recs[|commits|].deleted
    ensures var reply := ChangesRecord(Some(recs[|commits|]), recs[0].state.version);
            reply.Changed? &&
            (reply.changes.complete
             <==> (forall m :: 0 <= m <= |commits| ==> !recs[m].deleted) &&
                  recs[|commits|].state.version - recs[0].state.version <= CHANGE_WINDOW)
  {
    var n, from := |commits|, recs[0].state.version;
    LifeGrows(recs, commits, 0, n);
    GoodAt(recs, commits, n);
    ChangesAnswer(recs[n], from);
    if Covers(recs[n], from) { CoveredStaysLive(recs, commits, n); }
    if forall m :: 0 <= m <= n ==> !recs[m].deleted { LogReaches(recs, commits, n); }
  }

  /** The answer is complete exactly if the database is still the one of state `i`, not deleted since, and at most
      1024 commits were applied since. */
  lemma CompleteExactlyInWindow(run: Run, k: Key, i: nat, j: nat)
    requires History(run) && AsksSince(run, k, i, j) && !run.states[j].dbs[k].deleted
    ensures var reply, recs := run.replies[j], Records(run, k, i, j);
            reply.Changed? &&
            (reply.changes.complete
             <==> (forall m :: 0 <= m <= j - i ==> !recs[m].deleted) &&
                  recs[j - i].state.version - recs[0].state.version <= 1024)
  {
    LifeOf(run, k, i, j);
    LifeCompleteInWindow(Records(run, k, i, j), Commits(run, k, i, j));
    AskedRecord(run, k, i, j);
  }

  /** The answer lists, ascending and once each, exactly the blocks the commits wrote. Any other block reads at the end
      as it did at the start if the file reached beyond it all the time, and as zeros if not. */
  ghost predicate CatchesUp(answer: ChangeSet, recs: seq<Record>, commits: seq<Option<CommitRequest>>, index: u64)
    requires |recs| == |commits| + 1
  {
    var n := |commits|;
    && answer.from == recs[0].state.version && answer.to == recs[n].state.version
    && Ascending(answer.blocks, Below)
    && (index in answer.blocks <==> index in Written(commits, n))
    && (index !in answer.blocks ==>
          Read(recs[n], index)
          == if Stayed(recs, index, n) then Read(recs[0], index) else Zeros(recs[0].state.pageSize))
  }

  lemma LifeCatchesUp(recs: seq<Record>, commits: seq<Option<CommitRequest>>, index: u64)
    requires Life(recs, commits) && !recs[0].deleted
    requires var reply := ChangesRecord(Some(recs[|commits|]), recs[0].state.version);
             reply.Changed? && reply.changes.complete
    ensures CatchesUp(ChangesRecord(Some(recs[|commits|]), recs[0].state.version).changes, recs, commits, index)
  {
    LifeGrows(recs, commits, 0, |commits|);
    GoodAt(recs, commits, |commits|);
    ChangesAnswer(recs[|commits|], recs[0].state.version);
    CoveredLists(recs, commits, |commits|, index);
    if index !in Written(commits, |commits|) { CoveredReads(recs, commits, |commits|, index); }
  }

  /** Every complete answer of a run is exact for the blocks written since state `i`. */
  lemma CompleteListsEveryWrite(run: Run, k: Key, i: nat, j: nat, index: u64)
    requires History(run) && AsksSince(run, k, i, j)
    requires run.replies[j].Changed? && run.replies[j].changes.complete
    ensures CatchesUp(run.replies[j].changes,
                      Records(run, k, i, j), Commits(run, k, i, j), index)
  {
    AskedRecord(run, k, i, j);
    LifeOf(run, k, i, j);
    LifeCatchesUp(Records(run, k, i, j), Commits(run, k, i, j), index);
  }

  // ---- a block cut off and grown back ----

  function Ones(): Bytes { seq(512, i => 1) }

  /** One block of ones at index 1. */
  const GROW := CommitRequest(LOST, CommitID(1), 1, 0, 2, [Block(1, Ones())], 0, 10)
  /** Cuts the file to one block, then makes it two blocks long again, without data. */
  const SHRINK := CommitRequest(LOST, CommitID(2), 1, 1, 1, [], 0, 10)
  const REGROW := CommitRequest(LOST, CommitID(3), 1, 2, 2, [], 0, 10)

  ghost function With(db: Record): StoreState { StoreState(map[LOST := db], map[]) }

  lemma CommitStep(db: Record, q: CommitRequest)
    requires q.key == LOST && Holds(db, q.leaseEpoch) && db.state.version == q.baseVersion < MAX64
    requires db.state.version != Inc(q.baseVersion) && ValidCommit(db.state.pageSize, q)
    ensures Step(With(db), Commit(q)) == (With(Apply(db, q)), Committed(q.baseVersion + 1))
  {
    CommitErrorNone(db.state.pageSize, q);
    assert With(db).dbs[LOST := Apply(db, q)] == With(Apply(db, q)).dbs;
  }

  ghost const GROWN := Apply(Created([1]).dbs[LOST], GROW)
  ghost const SHRUNK := Apply(GROWN, SHRINK)
  ghost const REGROWN := Apply(SHRUNK, REGROW)

  lemma GrownReads()
    ensures Read(GROWN, 1) == Ones()
  {
    WriteBlocksDomain(Created([1]).dbs[LOST].blocks, GROW.blocks);
    assert Indexes(GROW.blocks) == {1};
    assert Block(1, WriteBlocks(Created([1]).dbs[LOST].blocks, GROW.blocks)[1]) in GROW.blocks;
  }

  lemma GrownRun() returns (run: Run)
    ensures History(run) && run.events == [Create([1]), Commit(GROW)] && run.states[2] == With(GROWN)
  {
    CreateStep([1]);
    run := Extended(START, Create([1]), Created([1]), Opened(Lease([1], 1), State(512, 0, 0, []), false));
    CommitStep(Created([1]).dbs[LOST], GROW);
    run := Extended(run, Commit(GROW), With(GROWN), Committed(1));
  }

  lemma ShrunkRun() returns (run: Run)
    ensures History(run) && run.events == [Create([1]), Commit(GROW), Commit(SHRINK), Commit(REGROW)]
    ensures run.states[2..] == [With(GROWN), With(SHRUNK), With(REGROWN)]
  {
    run := GrownRun();
    CommitStep(GROWN, SHRINK);
    run := Extended(run, Commit(SHRINK), With(SHRUNK), Committed(2));
    CommitStep(SHRUNK, REGROW);
    run := Extended(run, Commit(REGROW), With(REGROWN), Committed(3));
  }

  lemma AskedRun() returns (run: Run)
    ensures History(run) && |run.events| == 5 && run.events[4] == Changes(LOST, 1)
    ensures run.events[2] == Commit(SHRINK) && run.events[3] == Commit(REGROW)
    ensures run.states[2] == With(GROWN) && run.states[3] == With(SHRUNK) && run.states[4] == With(REGROWN)
  {
    run := ShrunkRun();
    assert run.states[2] == run.states[2..][0] && run.states[3] == run.states[2..][1];
    assert run.states[4] == run.states[2..][2];
    var e := Changes(LOST, 1);
    run := Extended(run, e, Step(Last(run), e).0, Step(Last(run), e).1);
  }

  lemma NothingWritten(commits: seq<Option<CommitRequest>>)
    requires |commits| == 2
    requires commits[0].Some? ==> commits[0].value.blocks == []
    requires commits[1].Some? ==> commits[1].value.blocks == []
    ensures Written(commits, 2) == {}
  {
    assert Written(commits, 1) == {};
  }

  /** The call asks since state 2, when the database was `grown`; after that the file was cut and grew back. */
  ghost predicate AsksAfterShrinking(run: Run, grown: Record, shrunk: Record, regrown: Record) {
    && History(run) && |run.events| == 5 && run.events[4] == Changes(LOST, 1)
    && run.events[2] == Commit(SHRINK) && run.events[3] == Commit(REGROW)
    && run.states[2] == With(grown) && run.states[3] == With(shrunk) && run.states[4] == With(regrown)
    && !grown.deleted && !shrunk.deleted && !regrown.deleted
    && grown.state.version == 1 && regrown.state.version == 3 && grown.state.pageSize == 512
    && shrunk.state.pageCount == 1
  }

  lemma AskedComplete(run: Run, grown: Record, shrunk: Record, regrown: Record)
    requires AsksAfterShrinking(run, grown, shrunk, regrown)
    ensures run.replies[4].Changed? && run.replies[4].changes.complete
  {
    CompleteExactlyInWindow(run, LOST, 2, 4);
    var recs := Records(run, LOST, 2, 4);
    assert recs[0] == grown && recs[1] == shrunk && recs[2] == regrown;
  }

  lemma AskedAnswer(run: Run, grown: Record, shrunk: Record, regrown: Record)
    requires AsksAfterShrinking(run, grown, shrunk, regrown)
    requires run.replies[4].Changed? && run.replies[4].changes.complete
    ensures 1 !in run.replies[4].changes.blocks && Read(regrown, 1) == Zeros(512)
  {
    CompleteListsEveryWrite(run, LOST, 2, 4, 1);
    var commits := Commits(run, LOST, 2, 4);
    assert commits[0] == AppliedBy(run.states[2], run.events[2], LOST);
    assert commits[1] == AppliedBy(run.states[3], run.events[3], LOST);
    NothingWritten(commits);
    assert Records(run, LOST, 2, 4)[1] == shrunk;
  }

  /** A complete answer need not list every block that reads differently: this one, since version 1, is empty, although
      block 1 was ones then and is zeros now. */
  lemma RegrownBlockUnlisted() returns (run: Run)
    ensures History(run) && |run.events| == 5 && run.events[4] == Changes(LOST, 1)
    ensures LOST in run.states[2].dbs && LOST in run.states[4].dbs && run.states[2].dbs[LOST].state.version == 1
    ensures run.replies[4].Changed? && run.replies[4].changes.complete && 1 !in run.replies[4].changes.blocks
    ensures Read(run.states[2].dbs[LOST], 1) == Ones() && Read(run.states[4].dbs[LOST], 1) == Zeros(512) != Ones()
  {
    run := AskedRun();
    AskedComplete(run, GROWN, SHRUNK, REGROWN);
    AskedAnswer(run, GROWN, SHRUNK, REGROWN);
    GrownReads();
    assert Zeros(512)[0] != Ones()[0];
  }
}
