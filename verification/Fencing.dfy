/** Safety over whole runs: fencing, exactly-once commits, and one content per version. */
module Fencing {
  import opened Basics
  import opened Store
  import opened Memory
  import opened Runs

  lemma CountersGrow(run: Run, k: Key, i: nat, j: nat)
    requires History(run) && i <= j <= |run.events| && Kept(run, k, i, j)
    ensures run.states[i].dbs[k].lease.epoch <= run.states[j].dbs[k].lease.epoch
    ensures run.states[i].dbs[k].state.version <= run.states[j].dbs[k].state.version
  {
    LifeOf(run, k, i, j);
    LifeGrows(Records(run, k, i, j), Commits(run, k, i, j), 0, j - i);
  }

  // ---- fencing ----

  /** The lease epoch a call presents to be let in. */
  function Presented(e: Event): Option<u64> {
    match e
    case Open(q, _) => if q.resume.Some? then Some(q.resume.value.leaseEpoch) else None
    case Commit(q) => Some(q.leaseEpoch)
    case Renew(_, epoch, _, _) => Some(epoch)
    case Release(_, epoch) => Some(epoch)
    case _ => None
  }

  /** Call `i` grants or resumes a lease of `k` with epoch `e`, or deletes `k` and raises its epoch to `e`. */
  ghost predicate Reaches(run: Run, k: Key, i: nat, e: u64)
    requires IsRun(run) && i < |run.events|
  {
    if OnDatabase(run.events[i]) then
      KeyOf(run.events[i]) == k &&
      match run.replies[i]
      case Opened(lease, _, _) => lease.epoch == e
      case Deleted(epoch, _) => epoch == e && e > 0
      case _ => false
    else
      && run.events[i].DeleteUnused? && k in run.events[i].chosen
      && k in run.states[i + 1].dbs && run.states[i + 1].dbs[k].lease.epoch == e
  }

  lemma ReachedEpoch(run: Run, k: Key, i: nat, e: u64)
    requires IsRun(run) && i < |run.events| && Reaches(run, k, i, e)
    ensures k in run.states[i + 1].dbs && run.states[i + 1].dbs[k].lease.epoch == e
    ensures k in run.states[i].dbs && Presented(run.events[i]).None? ==> e == Inc(run.states[i].dbs[k].lease.epoch)
  {
    StepAt(run, i);
  }

  lemma Refused(s: StoreState, e: Event)
    requires OnDatabase(e) && KeyOf(e) in s.dbs
    requires Presented(e).Some? && Presented(e).value != s.dbs[KeyOf(e)].lease.epoch
    ensures Step(s, e).1.Failed? && Step(s, e).0 == s
    ensures !e.Open? ==> Step(s, e).1 == Failed(Fenced)
  {
    assert Put(s.dbs, KeyOf(e), Some(s.dbs[KeyOf(e)])) == s.dbs;
  }

  /** Once epoch `e` is reached, no call that presents a lower epoch succeeds or changes anything, however the run goes
      on: also after the database is deleted and created again, as long as its record is not purged. */
  lemma FencedForever(run: Run, k: Key, i: nat, e: u64, j: nat)
    requires History(run) && i < j < |run.events| && Kept(run, k, i + 1, j)
    requires Reaches(run, k, i, e)
    requires OnDatabase(run.events[j]) && KeyOf(run.events[j]) == k
    requires Presented(run.events[j]).Some? && Presented(run.events[j]).value < e
    ensures run.replies[j].Failed? && run.states[j + 1] == run.states[j]
    ensures !run.events[j].Open? ==> run.replies[j] == Failed(Fenced)
  {
    ReachedEpoch(run, k, i, e);
    CountersGrow(run, k, i + 1, j);
    Refused(run.states[j], run.events[j]);
    StepAt(run, j);
  }

  /** A new lease or a deletion goes one above every epoch reached before. */
  lemma NewEpochIsHigher(run: Run, k: Key, i: nat, e: u64)
    requires History(run) && i < |run.events| && k in run.states[i].dbs
    requires Reaches(run, k, i, e) && Presented(run.events[i]).None?
    ensures e == run.states[i].dbs[k].lease.epoch + 1
  {
    RunGood(run, i);
    ReachedEpoch(run, k, i, e);
  }

  const LOST := Key("alice", "db")

  function Create(id: Bytes): Event {
    Open(OpenRequest(LOST, "", Some(id), 512, true, false, None, 0, 10), id)
  }

  function Created(id: Bytes): StoreState {
    StoreState(map[LOST := Fresh(512).(lease := Lease(id, 1), holder := Some(id), expiresAt := 10)], map[])
  }

  lemma CreateStep(id: Bytes)
    ensures Step(EMPTY, Create(id)) == (Created(id), Opened(Lease(id, 1), State(512, 0, 0, []), false))
  {}

  lemma PurgeStep(s: StoreState)
    requires s.dbs.Keys == {LOST} && s.slots == map[]
    ensures Step(s, DeleteSlot("o", "alice")).0 == EMPTY
  {
    assert WithoutSubject(s.dbs, "alice") == map[];
  }

  const DELETION := Delete(DeleteRequest(LOST, true, 0))
  const DELETED := StoreState(map[LOST := Remove(Created([1]).dbs[LOST])], map[])

  lemma DeleteStep()
    ensures Step(Created([1]), DELETION) == (DELETED, Deleted(2, true))
  {
    assert Created([1]).dbs[LOST := Remove(Created([1]).dbs[LOST])] == DELETED.dbs;
  }

  const LATE := CommitRequest(LOST, CommitID(7), 1, 0, 0, [], 0, 10)

  lemma LateStep()
    ensures Step(Created([2]), Commit(LATE)).1 == Committed(1)
  {
    CommitErrorNone(512, LATE);
  }

  /** Created, deleted and purged. */
  lemma PurgedRun() returns (run: Run)
    ensures History(run) && |run.events| == 3 && Last(run) == EMPTY
    ensures Reaches(run, LOST, 1, 2)
  {
    CreateStep([1]);
    DeleteStep();
    PurgeStep(DELETED);
    var granted := Opened(Lease([1], 1), State(512, 0, 0, []), false);
    ExtendHistory(START, Create([1]), Created([1]), granted);
    run := Extend(START, Create([1]), Created([1]), granted);
    ExtendHistory(run, DELETION, DELETED, Deleted(2, true));
    run := Extend(run, DELETION, DELETED, Deleted(2, true));
    var purge := DeleteSlot("o", "alice");
    var purged := Step(DELETED, purge).1;
    ExtendHistory(run, purge, EMPTY, purged);
    run := Extend(run, purge, EMPTY, purged);
  }

  /** The record must stay: after a purge the epochs start again, and a request from a lease that was fenced succeeds. */
  lemma PurgeRestartsEpochs() returns (run: Run)
    ensures History(run) && |run.events| == 5
    ensures Reaches(run, LOST, 1, 2) && LOST !in run.states[3].dbs
    ensures Presented(run.events[4]) == Some(1) && run.replies[4] == Committed(1)
  {
    run := PurgedRun();
    CreateStep([2]);
    LateStep();
    var granted := Opened(Lease([2], 1), State(512, 0, 0, []), false);
    ExtendHistory(run, Create([2]), Created([2]), granted);
    run := Extend(run, Create([2]), Created([2]), granted);
    var after := Step(Created([2]), Commit(LATE)).0;
    ExtendHistory(run, Commit(LATE), after, Committed(1));
    run := Extend(run, Commit(LATE), after, Committed(1));
  }

  // ---- exactly-once commits ----

  /** Of two commits applied to a key, the later one has a higher base version and no lower lease epoch. So every base
      version is applied at most once, however often its request is repeated. */
  lemma AppliedOnce(run: Run, k: Key, i: nat, j: nat)
    requires History(run) && i < j < |run.events| && Kept(run, k, i, j)
    requires Applies(run.states[i], run.events[i], k) && Applies(run.states[j], run.events[j], k)
    ensures run.events[i].commit.baseVersion < run.events[j].commit.baseVersion
    ensures run.events[i].commit.leaseEpoch <= run.events[j].commit.leaseEpoch
  {
    RunGood(run, i);
    StepAt(run, i);
    StepMoves(run.states[i], run.events[i], k);
    CountersGrow(run, k, i + 1, j);
  }

  /** Call `i` applied commit `id` to `k` and produced `version`. */
  ghost predicate Produced(run: Run, k: Key, i: nat, id: Bytes, version: int)
    requires IsRun(run) && i < |run.events|
  {
    && Applies(run.states[i], run.events[i], k) && run.events[i].commit.commitID == id
    && run.events[i].commit.baseVersion + 1 == version
  }

  lemma LastCommitStep(s: StoreState, e: Event, k: Key, s': StoreState)
    requires Legal(s, e) && Step(s, e).0 == s' && k in s'.dbs && s'.dbs[k].state.lastCommitID != []
    requires k in s.dbs ==> Good(s.dbs[k]) && s.dbs[k].state.version < MAX64
    ensures k in s.dbs
    ensures if Applies(s, e, k)
            then s'.dbs[k].state.lastCommitID == e.commit.commitID && s'.dbs[k].state.version == e.commit.baseVersion + 1
            else s'.dbs[k].state == s.dbs[k].state
  {
    if k !in s.dbs { StepCreates(s, e, k); } else { StepMoves(s, e, k); }
  }

  lemma LastCommitAt(run: Run, k: Key, j: nat)
    requires History(run) && j <= |run.events| && k in run.states[j].dbs
    requires run.states[j].dbs[k].state.lastCommitID != []
    ensures j > 0 && k in run.states[j - 1].dbs
    ensures var state := run.states[j].dbs[k].state;
            if Applies(run.states[j - 1], run.events[j - 1], k)
            then Produced(run, k, j - 1, state.lastCommitID, state.version)
            else state == run.states[j - 1].dbs[k].state
  {
    assert j > 0;
    RunGood(run, j - 1);
    StepAt(run, j - 1);
    LastCommitStep(run.states[j - 1], run.events[j - 1], k, run.states[j]);
  }

  /** A nonempty last commit ID names the commit that produced the current version. */
  lemma {:induction false} LastCommitProduced(run: Run, k: Key, j: nat) returns (i: nat)
    requires History(run) && j <= |run.events| && k in run.states[j].dbs
    requires run.states[j].dbs[k].state.lastCommitID != []
    ensures i < j && Kept(run, k, i, j)
    ensures Produced(run, k, i, run.states[j].dbs[k].state.lastCommitID, run.states[j].dbs[k].state.version)
    decreases j
  {
    LastCommitAt(run, k, j);
    if Applies(run.states[j - 1], run.events[j - 1], k) {
      i := j - 1;
    } else {
      i := LastCommitProduced(run, k, j - 1);
    }
  }

  lemma AcknowledgedStep(s: StoreState, q: CommitRequest)
    requires Step(s, Commit(q)).1.Committed?
    ensures q.key in s.dbs && Step(s, Commit(q)).1.version == Inc(q.baseVersion)
    ensures !Applies(s, Commit(q), q.key) ==> Repeats(s.dbs[q.key], q)
  {
    if q.key in s.dbs { CommitErrorNone(s.dbs[q.key].state.pageSize, q); }
  }

  /** Every acknowledged version is the base version plus one, and a commit with that ID produced it, now or earlier;
      a base version of 2^64 - 1 is never acknowledged. */
  lemma AcknowledgedWasApplied(run: Run, j: nat) returns (i: nat)
    requires History(run) && j < |run.events|
    requires run.events[j].Commit? && run.replies[j].Committed?
    ensures i <= j && Kept(run, run.events[j].commit.key, i, j)
    ensures run.replies[j].version == run.events[j].commit.baseVersion + 1
    ensures Produced(run, run.events[j].commit.key, i, run.events[j].commit.commitID, run.replies[j].version)
  {
    var q := run.events[j].commit;
    RunGood(run, j);
    StepAt(run, j);
    AcknowledgedStep(run.states[j], q);
    if Applies(run.states[j], run.events[j], q.key) {
      i := j;
    } else {
      i := LastCommitProduced(run, q.key, j);
    }
  }

  // ---- one content per version ----

  lemma {:induction false} LifeFixesContent(recs: seq<Record>, commits: seq<Option<CommitRequest>>, j: nat)
    requires Life(recs, commits) && j < |recs|
    requires !recs[0].deleted && recs[0].state.version == recs[j].state.version
    ensures SameContent(recs[0], recs[j])
  {
    if j > 0 {
      LifeGrows(recs, commits, 0, j - 1);
      MoveAt(recs, commits, j - 1);
      LifeFixesContent(recs, commits, j - 1);
    }
  }

  /** Two states with the same version have the same page size, page count, last commit ID, blocks and change log. */
  lemma VersionFixesContent(run: Run, k: Key, i: nat, j: nat)
    requires History(run) && i <= j <= |run.events| && Kept(run, k, i, j)
    requires !run.states[i].dbs[k].deleted && run.states[i].dbs[k].state.version == run.states[j].dbs[k].state.version
    ensures SameContent(run.states[i].dbs[k], run.states[j].dbs[k])
  {
    LifeOf(run, k, i, j);
    LifeFixesContent(Records(run, k, i, j), Commits(run, k, i, j), j - i);
  }

  lemma FetchAnswer(s: StoreState, e: Event)
    requires e.Fetch? && Step(s, e).1.Pages?
    ensures e.fetchKey in s.dbs && !s.dbs[e.fetchKey].deleted && s.dbs[e.fetchKey].state.version == e.version
    ensures e.first + e.count <= s.dbs[e.fetchKey].state.pageCount
    ensures Step(s, e).1 == Pages(ReadRange(s.dbs[e.fetchKey], e.first, e.count))
  {}

  lemma SameReads(a: Record, b: Record, first: u64, count: u64)
    requires SameContent(a, b) && first + count <= MAX64
    ensures ReadRange(a, first, count) == ReadRange(b, first, count)
  {
    forall i | 0 <= i < count ensures ReadRange(a, first, count)[i] == ReadRange(b, first, count)[i] {
      assert Read(a, first + i) == Read(b, first + i);
    }
  }

  /** The fetches at positions `at` read `k` at one version and all succeed. */
  ghost predicate FetchesOne(run: Run, k: Key, version: u64, at: seq<nat>)
    requires IsRun(run)
  {
    && (forall n :: 0 <= n < |at| ==> at[n] < |run.events|)
    && (forall m, n :: 0 <= m < n < |at| ==> at[m] < at[n])
    && (forall n :: 0 <= n < |at| ==> run.events[at[n]].Fetch? && run.events[at[n]].fetchKey == k &&
                                      run.events[at[n]].version == version && run.replies[at[n]].Pages?)
  }

  /** A fetch of several ranges makes one store call per range, and other clients' calls may come in between. If all
      succeed, the answers are the blocks of one snapshot: the content when the first range was read. */
  lemma FetchesReadOneSnapshot(run: Run, k: Key, version: u64, at: seq<nat>, n: nat)
    requires History(run) && FetchesOne(run, k, version, at) && n < |at|
    requires Kept(run, k, at[0], at[|at| - 1])
    ensures var snapshot := run.states[at[0]].dbs[k];
            var e := run.events[at[n]];
            && e.first + e.count <= snapshot.state.pageCount
            && run.replies[at[n]] == Pages(ReadRange(snapshot, e.first, e.count))
  {
    assert at[0] <= at[n] <= at[|at| - 1];
    StepAt(run, at[0]);
    StepAt(run, at[n]);
    FetchAnswer(run.states[at[0]], run.events[at[0]]);
    FetchAnswer(run.states[at[n]], run.events[at[n]]);
    VersionFixesContent(run, k, at[0], at[n]);
    SameReads(run.states[at[0]].dbs[k], run.states[at[n]].dbs[k], run.events[at[n]].first, run.events[at[n]].count);
  }
}
