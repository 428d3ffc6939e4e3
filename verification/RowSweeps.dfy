/** PostgreSQL's DeleteUnused as it runs: the candidates are read without a lock, then every candidate is deleted in its
    own transaction. Any number of sweeps run at the same time, with the calls of clients between their transactions. */
module RowSweeps {
  import opened Basics
  import opened Store
  import opened Memory
  import opened Tables
  import opened Postgres
  import opened Runs

  datatype Sweeper = Sweeper(cutoff: int, candidates: seq<Key>, at: nat, deleted: seq<Key>, failed: bool)

  datatype System = System(t: Tables, sweepers: map<nat, Sweeper>)

  datatype Action =
    | Call(e: Event)                                                   // one call of a client, one transaction
    | Begin(id: nat, cutoff: int, limit: nat, candidates: seq<Key>)    // a sweep reads its candidates
    | Next(id: nat)                                                    // the transaction of its next candidate
    | Finish(id: nat)                                                  // ReleaseUnusedSlots

  predicate Running(s: System, id: nat) {
    id in s.sweepers && !s.sweepers[id].failed && s.sweepers[id].at < |s.sweepers[id].candidates|
  }

  /** The candidate whose row the sweep locks next. */
  function Candidate(s: System, id: nat): Key
    requires Running(s, id)
  {
    s.sweepers[id].candidates[s.sweepers[id].at]
  }

  ghost predicate Enabled(s: System, a: Action) {
    match a
    case Call(e) => !e.DeleteUnused?
    case Begin(id, cutoff, limit, candidates) =>
      id !in s.sweepers && UnusedDatabases(s.t, cutoff, Min(limit, 0x4000_0000), candidates)
    case Next(id) => Running(s, id)
    case Finish(id) => id in s.sweepers && !s.sweepers[id].failed && s.sweepers[id].at == |s.sweepers[id].candidates|
  }

  /** Locks the row, checks it again, and deletes it if it is still unused; a row that is gone ends the sweep. */
  function NextRow(s: System, id: nat): System
    requires Running(s, id)
  {
    var w, k := s.sweepers[id], Candidate(s, id);
    var t := SweepRow(s.t, w.cutoff, k);
    if t.None? then System(s.t, s.sweepers[id := w.(failed := true)])
    else
      var deleted := if UnusedRow(s.t, w.cutoff, k) then w.deleted + [k] else w.deleted;
      System(t.value, s.sweepers[id := w.(at := w.at + 1, deleted := deleted)])
  }

  ghost function Act(s: System, a: Action): System
    requires Enabled(s, a)
  {
    match a
    case Call(e) => s.(t := PgStep(s.t, e).0)
    case Begin(id, cutoff, _, candidates) => s.(sweepers := s.sweepers[id := Sweeper(cutoff, candidates, 0, [], false)])
    case Next(id) => NextRow(s, id)
    case Finish(id) => System(ReleaseUnusedSlots(s.t, s.sweepers[id].cutoff), s.sweepers - {id})
  }

  ghost predicate IsTrace(states: seq<System>, actions: seq<Action>) {
    && |states| == |actions| + 1 && states[0].sweepers == map[]
    && forall i {:trigger Turn(i)} :: 0 <= i < |actions| ==>
         Enabled(states[i], actions[i]) && Act(states[i], actions[i]) == states[i + 1]
  }

  predicate Live(t: Tables, k: Key) {
    k in t.databases && !t.databases[k].deleted
  }

  /** Step `i` ends the life of the database `k`: it deletes or purges it. */
  ghost predicate Ends(states: seq<System>, k: Key, i: nat)
    requires i + 1 < |states|
  {
    Live(states[i].t, k) && !Live(states[i + 1].t, k)
  }

  // ---- what one step does to a database ----

  /** A sweep's transaction changes nothing but its candidate, and that only if the candidate's row, now locked, is live
      and expired before the cutoff; exactly then the sweep counts it as deleted. */
  lemma NextDeletesOnlyUnused(s: System, id: nat, k: Key)
    requires Running(s, id)
    ensures var s' := NextRow(s, id);
            && (k != Candidate(s, id) ==> Lookup(s'.t.databases, k) == Lookup(s.t.databases, k))
            && (Live(s.t, k) && !Live(s'.t, k) <==>
                  k == Candidate(s, id) && UnusedRow(s.t, s.sweepers[id].cutoff, k) && !s'.sweepers[id].failed)
            && (Live(s.t, k) && !Live(s'.t, k) ==> s'.sweepers[id].deleted == s.sweepers[id].deleted + [k])
            && (!UnusedRow(s.t, s.sweepers[id].cutoff, Candidate(s, id)) ==>
                  s'.t == s.t && s'.sweepers[id].deleted == s.sweepers[id].deleted)
  {}

  /** Only an open that may create brings a deleted or missing database to life. */
  lemma OnlyOpenRevives(t: Tables, e: Event, k: Key)
    requires !e.DeleteUnused? && !Live(t, k) && Live(PgStep(t, e).0, k)
    ensures e.Open? && e.open.key == k && e.open.create && PgStep(t, e).1.Opened?
  {}

  predicate Recreates(a: Action, k: Key) {
    a.Call? && a.e.Open? && a.e.open.key == k && a.e.open.create
  }

  lemma StepRevives(s: System, a: Action, k: Key)
    requires Enabled(s, a) && !Live(s.t, k) && Live(Act(s, a).t, k)
    ensures Recreates(a, k)
  {
    match a
    case Call(e) => OnlyOpenRevives(s.t, e, k);
    case Next(id) => NextDeletesOnlyUnused(s, id, k);
    case _ =>
  }

  lemma {:induction false} Revived(states: seq<System>, actions: seq<Action>, k: Key, i: nat, j: nat) returns (m: nat)
    requires IsTrace(states, actions) && i <= j <= |actions| && !Live(states[i].t, k) && Live(states[j].t, k)
    ensures i <= m < j && Recreates(actions[m], k) && !Live(states[m].t, k) && Live(states[m + 1].t, k)
    decreases j
  {
    assert Turn(j - 1);
    if Live(states[j - 1].t, k) {
      m := Revived(states, actions, k, i, j - 1);
    } else {
      m := j - 1;
      StepRevives(states[m], actions[m], k);
    }
  }

  /** No incarnation of a database is deleted twice, by sweeps, deletions or claims: between two deletions of a key an
      open has created it again. */
  lemma DeletedOncePerIncarnation(states: seq<System>, actions: seq<Action>, k: Key, i: nat, j: nat) returns (m: nat)
    requires IsTrace(states, actions) && i < j < |actions|
    requires Ends(states, k, i) && Ends(states, k, j)
    ensures i < m < j && Recreates(actions[m], k) && !Live(states[m].t, k) && Live(states[m + 1].t, k)
  {
    m := Revived(states, actions, k, i + 1, j);
  }

  // ---- a sweep on its own ----

  /** The first `n` candidates of a sweep, without calls of others in between. */
  ghost predicate Advances(states: seq<System>, id: nat, n: nat) {
    && n < |states|
    && forall i {:trigger Turn(i)} :: 0 <= i < n ==> Running(states[i], id) && NextRow(states[i], id) == states[i + 1]
  }

  lemma AloneNext(s: System, id: nat, w: Sweeper, others: map<nat, Sweeper>)
    requires s.sweepers == others[id := w] && Running(s, id)
    ensures var k := w.candidates[w.at];
            var row := SweepRow(s.t, w.cutoff, k);
            row.Some? ==>
              var deleted := if UnusedRow(s.t, w.cutoff, k) then w.deleted + [k] else w.deleted;
              NextRow(s, id) == System(row.value, others[id := w.(at := w.at + 1, deleted := deleted)])
  {
  }

  lemma {:induction false} AloneSoFar(states: seq<System>, id: nat, cutoff: int, candidates: seq<Key>, n: nat)
    requires n <= |candidates| && n < |states|
    requires id in states[0].sweepers && states[0].sweepers[id] == Sweeper(cutoff, candidates, 0, [], false)
    requires Advances(states, id, n) && !SweepRows(states[0].t, cutoff, candidates[..n]).2
    ensures var (t, deleted, _) := SweepRows(states[0].t, cutoff, candidates[..n]);
            states[n] == System(t, states[0].sweepers[id := Sweeper(cutoff, candidates, n, deleted, false)])
  {
    if n > 0 {
      assert candidates[..n][..n - 1] == candidates[..n - 1];
      assert Advances(states, id, n - 1) by {
        forall i | 0 <= i < n - 1 ensures Running(states[i], id) && NextRow(states[i], id) == states[i + 1] {
          assert Turn(i);
        }
      }
      AloneSoFar(states, id, cutoff, candidates, n - 1);
      assert Turn(n - 1);
      AloneNext(states[n - 1], id, states[n - 1].sweepers[id], states[0].sweepers);
    } else {
      assert states[0].sweepers == states[0].sweepers[id := states[0].sweepers[id]];
    }
  }

  /** A sweep that nobody interrupts leaves the tables, and lists the keys, that the call as one atomic step does. */
  lemma AloneIsAtomic(before: System, states: seq<System>, id: nat, cutoff: int, limit: nat, candidates: seq<Key>)
    requires |states| == |candidates| + 1 && Advances(states, id, |candidates|)
    requires Enabled(before, Begin(id, cutoff, limit, candidates))
    requires Act(before, Begin(id, cutoff, limit, candidates)) == states[0]
    requires PgDeleteUnused(before.t, cutoff, candidates).1.Keys?
    ensures var s, (t, reply) := states[|candidates|], PgDeleteUnused(before.t, cutoff, candidates);
            && Enabled(s, Finish(id)) && s.sweepers[id].deleted == reply.keys
            && Act(s, Finish(id)) == System(t, before.sweepers)
  {
    assert candidates[..|candidates|] == candidates;
    AloneSoFar(states, id, cutoff, candidates, |candidates|);
    var s := states[|candidates|];
    assert s.sweepers - {id} == before.sweepers;
  }

  // ---- what a sweep lists ----

  /** Sweep `id` deleted the key in position `n` of its list at some earlier step of the trace. */
  ghost predicate DeletedAt(states: seq<System>, actions: seq<Action>, id: nat, k: Key, m: nat)
    requires |states| == |actions| + 1 && m < |actions|
  {
    && actions[m] == Next(id) && Running(states[m], id) && Candidate(states[m], id) == k
    && UnusedRow(states[m].t, states[m].sweepers[id].cutoff, k) && Ends(states, k, m)
  }

  lemma ListGrows(s: System, a: Action, id: nat, k: Key)
    requires Enabled(s, a) && id in Act(s, a).sweepers && k in Act(s, a).sweepers[id].deleted
    ensures || (id in s.sweepers && k in s.sweepers[id].deleted)
            || (a == Next(id) && Candidate(s, id) == k && UnusedRow(s.t, s.sweepers[id].cutoff, k)
                && Live(s.t, k) && !Live(Act(s, a).t, k))
  {
    if a == Next(id) { NextDeletesOnlyUnused(s, id, Candidate(s, id)); }
  }

  /** Every key a sweep lists was deleted by that sweep, in a step in which its locked row was live and expired before
      the sweep's cutoff. */
  lemma {:induction false} ListedWasDeleted(states: seq<System>, actions: seq<Action>, j: nat, id: nat, k: Key)
      returns (m: nat)
    requires IsTrace(states, actions) && j <= |actions|
    requires id in states[j].sweepers && k in states[j].sweepers[id].deleted
    ensures m < j && DeletedAt(states, actions, id, k, m)
    decreases j
  {
    assert j > 0;
    assert Turn(j - 1);
    ListGrows(states[j - 1], actions[j - 1], id, k);
    if id in states[j - 1].sweepers && k in states[j - 1].sweepers[id].deleted {
      m := ListedWasDeleted(states, actions, j - 1, id, k);
    } else {
      m := j - 1;
    }
  }

  /** Two different sweeps never list the same incarnation: if both list a key, at whatever time each, it was created again
      in between. */
  lemma SweepsShareNoIncarnation(states: seq<System>, actions: seq<Action>, ja: nat, jb: nat, a: nat, b: nat, k: Key)
      returns (first: nat, again: nat, second: nat)
    requires IsTrace(states, actions) && ja <= |actions| && jb <= |actions| && a != b
    requires a in states[ja].sweepers && k in states[ja].sweepers[a].deleted
    requires b in states[jb].sweepers && k in states[jb].sweepers[b].deleted
    ensures first < again < second < Max(ja, jb) && Recreates(actions[again], k)
    ensures (DeletedAt(states, actions, a, k, first) && DeletedAt(states, actions, b, k, second))
         || (DeletedAt(states, actions, b, k, first) && DeletedAt(states, actions, a, k, second))
  {
    var ma := ListedWasDeleted(states, actions, ja, a, k);
    var mb := ListedWasDeleted(states, actions, jb, b, k);
    assert ma != mb;
    first, second := Min(ma, mb), Max(ma, mb);
    again := DeletedOncePerIncarnation(states, actions, k, first, second);
  }
}
