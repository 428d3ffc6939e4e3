/** Lease renewal against the PostgreSQL store. */
module PostgresKeepAlive {
  import opened Basics
  import opened Store
  import opened Memory
  import opened Runs
  import opened KeepAlive
  import opened Tables
  import opened Postgres
  import opened Relation
  import opened Simulation
  import opened PostgresRuns

  datatype PgSystem = PgSystem(tables: Tables, client: Client)

  ghost function PgAfter(k: Key, ttl: int, p: PgSystem, a: Action): (PgSystem, Reply) {
    var sent := Sent(k, ttl, p.client, a);
    var (tables, reply) := if sent.Some? then PgStep(p.tables, sent.value) else (p.tables, Done);
    (PgSystem(tables, Noted(p.client, ttl, a, reply)), reply)
  }

  /** A call that is meant to end the lease, as for the memory store. */
  predicate PgEnds(t: Tables, k: Key, epoch: u64, e: Event) {
    match e
    case Open(q, _) =>
      q.key == k && q.resume.None? &&
      (q.takeover || (k in t.databases && OfHolder(t.databases[k].leaseHolder, q)))
    case Release(key, released) => key == k && released == epoch
    case Delete(q) => q.key == k && q.takeover
    case ClaimSlot(q) => q.owner in t.slots && t.slots[q.owner].subject == k.subject && q.subject != k.subject
    case DeleteSlot(owner, subject) => subject == k.subject
    case _ => false
  }

  ghost predicate PgAllowed(k: Key, ttl: int, p: PgSystem, a: Action) {
    match a
    case Ping(_) => true
    case CommitFrame(q) => q.key == k && q.ttl == ttl && Fits(Commit(q))
    case Other(e, at) => PgLegal(p.tables, e) && Fits(e) && MadeAt(e, at, ttl) && !PgEnds(p.tables, k, p.client.epoch, e)
  }

  datatype PgTrace = PgTrace(systems: seq<PgSystem>, actions: seq<Action>)

  ghost predicate IsPgTrace(t: PgTrace, k: Key, ttl: int, pingInterval: int) {
    && |t.systems| == |t.actions| + 1
    && forall i {:trigger Turn(i)} :: 0 <= i < |t.actions| ==>
         && InTime(t.systems[i].client, t.actions[i], pingInterval) && PgAllowed(k, ttl, t.systems[i], t.actions[i])
         && PgAfter(k, ttl, t.systems[i], t.actions[i]).0 == t.systems[i + 1]
  }

  // ---- the same trace on the memory store ----

  lemma EndsInBoth(t: Tables, s: StoreState, k: Key, epoch: u64, e: Event)
    requires Rel(t, s)
    ensures Ends(s, k, epoch, e) <==> PgEnds(t, k, epoch, e)
  {
    if k in s.dbs { RelAt(t, s, k); }
  }

  lemma SentLegal(p: PgSystem, k: Key, ttl: int, a: Action, e: Event)
    requires PgAllowed(k, ttl, p, a) && Sent(k, ttl, p.client, a) == Some(e)
    ensures PgLegal(p.tables, e) && Fits(e)
  {
  }

  lemma SystemStep(p: PgSystem, s: StoreState, k: Key, ttl: int, a: Action, n: nat)
    requires Rel(p.tables, s) && GoodState(s, n) && n < MAX63 && PgAllowed(k, ttl, p, a)
    ensures Allowed(k, ttl, System(s, p.client), a)
    ensures var (p', reply) := PgAfter(k, ttl, p, a);
            var (sys', reply') := After(k, ttl, System(s, p.client), a);
            reply == reply' && p'.client == sys'.client && Rel(p'.tables, sys'.store) && GoodState(sys'.store, n + 1)
  {
    var sent := Sent(k, ttl, p.client, a);
    if a.Other? { EndsInBoth(p.tables, s, k, p.client.epoch, a.event); }
    if sent.Some? {
      SentLegal(p, k, ttl, a, sent.value);
      OneCall(p.tables, s, sent.value, n, PgStep(p.tables, sent.value).0, PgStep(p.tables, sent.value).1);
      StepGood(s, sent.value, n);
    }
  }

  /** The memory store makes the same trace from any state that the first tables represent. */
  ghost predicate ShadowsTrace(t: Trace, pt: PgTrace, n: nat) {
    && t.actions == pt.actions && |t.systems| == |pt.systems|
    && forall i {:trigger Turn(i)} :: 0 <= i < |t.systems| ==>
         && t.systems[i].client == pt.systems[i].client
         && Rel(pt.systems[i].tables, t.systems[i].store) && GoodState(t.systems[i].store, n + i)
  }

  function TracePrefix(pt: PgTrace, m: nat): PgTrace
    requires m <= |pt.actions| && |pt.systems| == |pt.actions| + 1
  {
    PgTrace(pt.systems[..m + 1], pt.actions[..m])
  }

  lemma {:induction false} TraceRefines(pt: PgTrace, k: Key, ttl: int, pingInterval: int, s: StoreState, n: nat, m: nat)
      returns (t: Trace)
    requires IsPgTrace(pt, k, ttl, pingInterval) && m <= |pt.actions| && n + |pt.actions| <= MAX63
    requires Rel(pt.systems[0].tables, s) && GoodState(s, n)
    ensures IsTrace(t, k, ttl, pingInterval) && ShadowsTrace(t, TracePrefix(pt, m), n)
    ensures t.systems[0] == System(s, pt.systems[0].client)
  {
    if m == 0 {
      t := Trace([System(s, pt.systems[0].client)], []);
      assert Rel(TracePrefix(pt, 0).systems[0].tables, t.systems[0].store);
    } else {
      var before := TraceRefines(pt, k, ttl, pingInterval, s, n, m - 1);
      t := NextShadow(before, pt, k, ttl, pingInterval, n, m);
    }
  }

  /** What is known before the next action. */
  lemma BeforeNext(before: Trace, pt: PgTrace, k: Key, ttl: int, pingInterval: int, n: nat, m: nat)
    requires IsPgTrace(pt, k, ttl, pingInterval) && 0 < m <= |pt.actions|
    requires IsTrace(before, k, ttl, pingInterval) && ShadowsTrace(before, TracePrefix(pt, m - 1), n)
    ensures |before.actions| == m - 1
    ensures var p, sys, a := pt.systems[m - 1], before.systems[m - 1], pt.actions[m - 1];
            && sys == System(sys.store, p.client) && Rel(p.tables, sys.store) && GoodState(sys.store, n + m - 1)
            && InTime(p.client, a, pingInterval) && PgAllowed(k, ttl, p, a)
            && PgAfter(k, ttl, p, a).0 == pt.systems[m]
  {
    assert Turn(m - 1);
    assert TracePrefix(pt, m - 1).systems[m - 1] == pt.systems[m - 1];
  }

  lemma NextShadow(before: Trace, pt: PgTrace, k: Key, ttl: int, pingInterval: int, n: nat, m: nat) returns (t: Trace)
    requires IsPgTrace(pt, k, ttl, pingInterval) && 0 < m <= |pt.actions| && n + |pt.actions| <= MAX63
    requires IsTrace(before, k, ttl, pingInterval) && ShadowsTrace(before, TracePrefix(pt, m - 1), n)
    ensures IsTrace(t, k, ttl, pingInterval) && ShadowsTrace(t, TracePrefix(pt, m), n)
    ensures t.systems[0] == before.systems[0]
  {
    BeforeNext(before, pt, k, ttl, pingInterval, n, m);
    var p, sys, a := pt.systems[m - 1], before.systems[m - 1], pt.actions[m - 1];
    SystemStep(p, sys.store, k, ttl, a, n + m - 1);
    var sys' := After(k, ttl, sys, a).0;
    t := Trace(before.systems + [sys'], before.actions + [a]);
    GrownTrace(before, k, ttl, pingInterval, a, sys');
    GrownShadow(before, pt, n, m, t, sys');
  }

  lemma GrownTrace(before: Trace, k: Key, ttl: int, pingInterval: int, a: Action, sys': System)
    requires IsTrace(before, k, ttl, pingInterval)
    requires var sys := before.systems[|before.actions|];
             InTime(sys.client, a, pingInterval) && Allowed(k, ttl, sys, a) && After(k, ttl, sys, a).0 == sys'
    ensures IsTrace(Trace(before.systems + [sys'], before.actions + [a]), k, ttl, pingInterval)
  {
    var t := Trace(before.systems + [sys'], before.actions + [a]);
    forall i | 0 <= i < |t.actions|
      ensures InTime(t.systems[i].client, t.actions[i], pingInterval) && Allowed(k, ttl, t.systems[i], t.actions[i])
      ensures After(k, ttl, t.systems[i], t.actions[i]).0 == t.systems[i + 1]
    {
      if i < |before.actions| { assert Turn(i); }
    }
  }

  lemma GrownShadow(before: Trace, pt: PgTrace, n: nat, m: nat, t: Trace, sys': System)
    requires 0 < m <= |pt.actions| && |pt.systems| == |pt.actions| + 1
    requires ShadowsTrace(before, TracePrefix(pt, m - 1), n)
    requires t == Trace(before.systems + [sys'], before.actions + [pt.actions[m - 1]])
    requires sys'.client == pt.systems[m].client && Rel(pt.systems[m].tables, sys'.store) && GoodState(sys'.store, n + m)
    ensures ShadowsTrace(t, TracePrefix(pt, m), n)
  {
    var prefix := TracePrefix(pt, m);
    forall i | 0 <= i < |t.systems|
      ensures t.systems[i].client == prefix.systems[i].client
      ensures Rel(prefix.systems[i].tables, t.systems[i].store) && GoodState(t.systems[i].store, n + i)
    {
      if i < m {
        assert Turn(i);
        assert prefix.systems[i] == TracePrefix(pt, m - 1).systems[i];
      }
    }
  }

  // ---- what it means ----

  /** The lease of the row is held at `now`. */
  predicate RowAlive(t: Tables, k: Key, epoch: u64, now: int) {
    k in t.databases && !t.databases[k].deleted && HoldsRow(t.databases[k], epoch) && ActiveRow(t.databases[k], now)
  }

  /** An open and a deletion without takeover are refused and change nothing, and a sweep spares the database. */
  predicate PgShut(t: Tables, k: Key, e: Event, reply: Reply, t': Tables) {
    match e
    case Open(q, _) => q.key == k && q.resume.None? ==> t' == t && reply.Failed?
    case Delete(q) => q.key == k ==> t' == t && reply.Failed?
    case DeleteUnused(_, _, chosen) => k !in chosen
    case _ => true
  }

  lemma ShutInBoth(s: StoreState, k: Key, e: Event, reply: Reply, s': StoreState, t: Tables)
    requires k in s.dbs && Shut(s, k, e, reply, s') && reply == PgStep(t, e).1
    ensures PgShut(t, k, e, reply, PgStep(t, e).0)
  {
    if OnDatabase(e) && reply.Failed? { FailedKeepsTables(t, e); }
  }

  lemma AliveInBoth(p: PgSystem, sys: System, k: Key, ttl: int, now: int)
    requires Rel(p.tables, sys.store) && p.client == sys.client && Alive(k, ttl, sys)
    requires Active(sys.store.dbs[k], now)
    ensures RowAlive(p.tables, k, p.client.epoch, now)
  {
    RelAt(p.tables, sys.store, k);
  }

  lemma StayOutFrom(pg: PgRun, run: Run, pt: PgTrace, k: Key, ttl: int, pingInterval: int, i: nat)
    requires Shadows(run, pg) && |pg.events| + |pt.actions| <= MAX63
    requires ValidTimes(ttl, pingInterval) && IsPgTrace(pt, k, ttl, pingInterval) && i < |pt.actions|
    requires pt.systems[0].tables == pg.tables[|pg.events|] && Alive(k, ttl, System(Last(run), pt.systems[0].client))
    ensures RowAlive(pt.systems[i].tables, k, pt.systems[i].client.epoch, TimeOf(pt.actions[i]))
    ensures pt.actions[i].Other? ==>
              PgShut(pt.systems[i].tables, k, pt.actions[i].event, PgAfter(k, ttl, pt.systems[i], pt.actions[i]).1,
                     pt.systems[i + 1].tables)
  {
    var n := |pg.events|;
    ShadowAt(run, pg, n);
    RunGood(run, n);
    var t := TraceRefines(pt, k, ttl, pingInterval, Last(run), n, |pt.actions|);
    assert TracePrefix(pt, |pt.actions|) == pt;
    OthersStayOut(t, k, ttl, pingInterval, i);
    StayOutAt(pt, t, k, ttl, pingInterval, n, i);
  }

  /** The last call of the run granted or resumed the client's lease. */
  ghost predicate JustOpened(pg: PgRun, k: Key, ttl: int, c: Client) {
    && pg.events != [] && |pg.replies| == |pg.events|
    && var e, reply := pg.events[|pg.events| - 1], pg.replies[|pg.events| - 1];
       && e.Open? && e.open.key == k && e.open.ttl == ttl && e.open.instance.Some? && reply.Opened?
       && c == Client(reply.lease.epoch, e.open.now, e.open.now, e.open.now)
  }

  lemma OpenedIsAlive(pg: PgRun, run: Run, k: Key, ttl: int, c: Client)
    requires Shadows(run, pg) && JustOpened(pg, k, ttl, c) && ttl >= 2
    ensures Alive(k, ttl, System(Last(run), c))
  {
    var n := |run.events| - 1;
    StepAt(run, n);
    var e := run.events[n];
    OpenStarts(run.states[n], e.open, e.leaseID, run.states[n + 1], run.replies[n]);
  }

  /** In every run of the PostgreSQL store that opens a database and goes on with a client that pings or commits at least
      every ping interval, the lease stays active, and others are kept out. */
  lemma PgOthersStayOut(pg: PgRun, pt: PgTrace, k: Key, ttl: int, pingInterval: int, i: nat)
    requires SmallHistory(pg) && |pg.events| + |pt.actions| <= MAX63 && pt.systems != []
    requires JustOpened(pg, k, ttl, pt.systems[0].client) && pt.systems[0].tables == pg.tables[|pg.events|]
    requires ValidTimes(ttl, pingInterval) && IsPgTrace(pt, k, ttl, pingInterval) && i < |pt.actions|
    ensures RowAlive(pt.systems[i].tables, k, pt.systems[i].client.epoch, TimeOf(pt.actions[i]))
    ensures pt.actions[i].Other? ==>
              PgShut(pt.systems[i].tables, k, pt.actions[i].event, PgAfter(k, ttl, pt.systems[i], pt.actions[i]).1,
                     pt.systems[i + 1].tables)
  {
    var run := PostgresRefinesMemory(pg);
    OpenedIsAlive(pg, run, k, ttl, pt.systems[0].client);
    StayOutFrom(pg, run, pt, k, ttl, pingInterval, i);
  }

  lemma StayOutAt(pt: PgTrace, t: Trace, k: Key, ttl: int, pingInterval: int, n: nat, i: nat)
    requires IsPgTrace(pt, k, ttl, pingInterval) && ShadowsTrace(t, pt, n) && i < |pt.actions| && n + i < MAX63
    requires Alive(k, ttl, t.systems[i]) && Active(t.systems[i].store.dbs[k], TimeOf(t.actions[i]))
    requires t.actions[i].Other? ==>
               Shut(t.systems[i].store, k, t.actions[i].event, After(k, ttl, t.systems[i], t.actions[i]).1,
                    t.systems[i + 1].store)
    ensures RowAlive(pt.systems[i].tables, k, pt.systems[i].client.epoch, TimeOf(pt.actions[i]))
    ensures pt.actions[i].Other? ==>
              PgShut(pt.systems[i].tables, k, pt.actions[i].event, PgAfter(k, ttl, pt.systems[i], pt.actions[i]).1,
                     pt.systems[i + 1].tables)
  {
    assert Turn(i);
    var p, sys, a := pt.systems[i], t.systems[i], pt.actions[i];
    AliveInBoth(p, sys, k, ttl, TimeOf(a));
    if a.Other? {
      assert sys == System(sys.store, p.client);
      SystemStep(p, sys.store, k, ttl, a, n + i);
      ShutInBoth(sys.store, k, a.event, PgStep(p.tables, a.event).1, t.systems[i + 1].store, p.tables);
    }
  }
}
