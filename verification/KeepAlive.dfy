/** Lease renewal: pings write to the store only after half the TTL, and still no lease of an attentive client expires.
    The store calls of all other connections run in between. */
module KeepAlive {
  import opened Basics
  import opened Store
  import opened Memory
  import opened Runs

  /** What a connection and its client know of the lease of an open database. `touched` is the time of the client's last
      ping or acknowledged commit, `clock` the time of the last store call of anybody. */
  datatype Client = Client(epoch: u64, renewed: int, touched: int, clock: int)

  /** The client with the store behind it. */
  datatype System = System(store: StoreState, client: Client)

  datatype Action =
    | Ping(now: int)
    | CommitFrame(commit: CommitRequest)
    | Other(event: Event, at: int)

  /** Config.Validate. */
  predicate ValidTimes(ttl: int, pingInterval: int) {
    pingInterval > 0 && ttl >= 2 * pingInterval
  }

  predicate RenewDue(renewed: int, now: int, ttl: int) {
    now - renewed >= ttl / 2
  }

  function TimeOf(a: Action): int {
    match a
    case Ping(now) => now
    case CommitFrame(q) => q.now
    case Other(_, at) => at
  }

  /** The event that the action sends to the store, if any. */
  function Sent(k: Key, ttl: int, c: Client, a: Action): Option<Event> {
    match a
    case Ping(now) => if RenewDue(c.renewed, now, ttl) then Some(Renew(k, c.epoch, now, ttl)) else None
    case CommitFrame(q) => Some(Commit(q))
    case Other(e, _) => Some(e)
  }

  /** What the connection and the client know after the answer. */
  function Noted(c: Client, ttl: int, a: Action, reply: Reply): Client {
    var now := TimeOf(a);
    match a
    case Ping(_) =>
      Client(c.epoch, if RenewDue(c.renewed, now, ttl) && !reply.Failed? then now else c.renewed, now, now)
    case CommitFrame(_) => if reply.Failed? then c.(clock := now) else Client(c.epoch, now, now, now)
    case Other(_, _) => c.(clock := now)
  }

  ghost function After(k: Key, ttl: int, sys: System, a: Action): (System, Reply) {
    var sent := Sent(k, ttl, sys.client, a);
    var (store, reply) := if sent.Some? then Step(sys.store, sent.value) else (sys.store, Done);
    (System(store, Noted(sys.client, ttl, a, reply)), reply)
  }

  // ---- what the other connections may do ----

  /** The open comes from the instance that holds the lease. A missing instance ID counts as an empty one. */
  predicate OfHolder(holder: Option<Bytes>, q: OpenRequest) {
    holder.Some? && holder.value == if q.instance.Some? then q.instance.value else []
  }

  /** A call that is meant to end the lease: an open that takes it over, with force or for the same instance; its
      release; a forced deletion; a purge of the key's databases. */
  predicate Ends(s: StoreState, k: Key, epoch: u64, e: Event) {
    match e
    case Open(q, _) =>
      q.key == k && q.resume.None? && (q.takeover || (k in s.dbs && OfHolder(s.dbs[k].holder, q)))
    case Release(key, released) => key == k && released == epoch
    case Delete(q) => q.key == k && q.takeover
    case ClaimSlot(q) => q.owner in s.slots && s.slots[q.owner].subject == k.subject && q.subject != k.subject
    case DeleteSlot(owner, subject) => subject == k.subject
    case _ => false
  }

  /** The server makes the call at time `at` with its own TTL; a sweep's cutoff is not in the future. */
  predicate MadeAt(e: Event, at: int, ttl: int) {
    match e
    case Open(q, _) => q.now == at && q.ttl == ttl
    case Commit(q) => q.now == at && q.ttl == ttl
    case Renew(_, _, now, renewTtl) => now == at && renewTtl == ttl
    case Delete(q) => q.now == at
    case DeleteUnused(cutoff, _, _) => cutoff <= at
    case _ => true
  }

  ghost predicate Allowed(k: Key, ttl: int, sys: System, a: Action) {
    match a
    case Ping(_) => true
    case CommitFrame(q) => q.key == k && q.ttl == ttl
    case Other(e, at) => Legal(sys.store, e) && MadeAt(e, at, ttl) && !Ends(sys.store, k, sys.client.epoch, e)
  }

  /** The clock does not go back, and the client's next sign of life is at most a ping interval after its last. */
  predicate InTime(c: Client, a: Action, pingInterval: int) {
    c.clock <= TimeOf(a) <= c.touched + pingInterval
  }

  // ---- the invariant ----

  /** The record holds the lease and expires at `until` or later. */
  predicate HeldUntil(s: StoreState, k: Key, epoch: u64, until: int) {
    k in s.dbs && !s.dbs[k].deleted && Holds(s.dbs[k], epoch) && s.dbs[k].expiresAt >= until
  }

  predicate Alive(k: Key, ttl: int, sys: System) {
    && HeldUntil(sys.store, k, sys.client.epoch, sys.client.renewed + ttl)
    && sys.client.renewed <= sys.client.touched <= sys.client.clock
    && !RenewDue(sys.client.renewed, sys.client.touched, ttl)
  }

  /** An allowed call of another connection does not end the lease, nor shorten it below the time it would grant. */
  lemma OthersKeep(s: StoreState, e: Event, k: Key, epoch: u64, until: int, at: int, ttl: int, s': StoreState)
    requires HeldUntil(s, k, epoch, until) && at < until <= at + ttl && Step(s, e).0 == s'
    requires Legal(s, e) && MadeAt(e, at, ttl) && !Ends(s, k, epoch, e)
    ensures HeldUntil(s', k, epoch, until)
  {
    if OnDatabase(e) && KeyOf(e) == k {
      RecordKeeps(s, e, k, epoch, until, at, ttl, s');
    }
  }

  lemma RecordKeeps(s: StoreState, e: Event, k: Key, epoch: u64, until: int, at: int, ttl: int, s': StoreState)
    requires HeldUntil(s, k, epoch, until) && at < until <= at + ttl && Step(s, e).0 == s'
    requires OnDatabase(e) && KeyOf(e) == k && MadeAt(e, at, ttl) && !Ends(s, k, epoch, e)
    ensures HeldUntil(s', k, epoch, until)
  {
  }

  lemma RenewExtends(s: StoreState, k: Key, epoch: u64, until: int, now: int, ttl: int)
    requires HeldUntil(s, k, epoch, until)
    ensures Step(s, Renew(k, epoch, now, ttl)).1 == Done
    ensures HeldUntil(Step(s, Renew(k, epoch, now, ttl)).0, k, epoch, now + ttl)
  {
  }

  /** A commit extends the lease if and only if it is acknowledged; a refused one changes nothing. */
  lemma CommitExtends(s: StoreState, q: CommitRequest, epoch: u64, until: int)
    requires HeldUntil(s, q.key, epoch, until)
    ensures var (s', reply) := Step(s, Commit(q));
            if reply.Committed? then HeldUntil(s', q.key, epoch, q.now + q.ttl) else reply.Failed? && s' == s
  {
  }

  lemma StepAlive(k: Key, ttl: int, pingInterval: int, sys: System, a: Action)
    requires ValidTimes(ttl, pingInterval) && Alive(k, ttl, sys)
    requires InTime(sys.client, a, pingInterval) && Allowed(k, ttl, sys, a)
    ensures Alive(k, ttl, After(k, ttl, sys, a).0)
  {
    var epoch, until := sys.client.epoch, sys.client.renewed + ttl;
    match a
    case Ping(now) => RenewExtends(sys.store, k, epoch, until, now, ttl);
    case CommitFrame(q) => CommitExtends(sys.store, q, epoch, until);
    case Other(e, at) => OthersKeep(sys.store, e, k, epoch, until, at, ttl, Step(sys.store, e).0);
  }

  // ---- whole runs ----

  datatype Trace = Trace(systems: seq<System>, actions: seq<Action>)

  ghost predicate IsTrace(t: Trace, k: Key, ttl: int, pingInterval: int) {
    && |t.systems| == |t.actions| + 1
    && forall i {:trigger Turn(i)} :: 0 <= i < |t.actions| ==>
         && InTime(t.systems[i].client, t.actions[i], pingInterval) && Allowed(k, ttl, t.systems[i], t.actions[i])
         && After(k, ttl, t.systems[i], t.actions[i]).0 == t.systems[i + 1]
  }

  /** A granted open starts the trace. */
  lemma OpenStarts(s: StoreState, q: OpenRequest, id: Bytes, s': StoreState, reply: Reply)
    requires Step(s, Open(q, id)) == (s', reply) && reply.Opened? && q.instance.Some? && q.ttl >= 2
    ensures Alive(q.key, q.ttl, System(s', Client(reply.lease.epoch, q.now, q.now, q.now)))
  {
  }

  /** The lease of a client that pings or commits at least every ping interval is held at every point of every run. */
  lemma {:induction false} StaysAlive(t: Trace, k: Key, ttl: int, pingInterval: int, i: nat)
    requires ValidTimes(ttl, pingInterval) && IsTrace(t, k, ttl, pingInterval) && i < |t.systems|
    requires Alive(k, ttl, t.systems[0])
    ensures Alive(k, ttl, t.systems[i])
  {
    if i > 0 {
      StaysAlive(t, k, ttl, pingInterval, i - 1);
      assert Turn(i - 1);
      StepAlive(k, ttl, pingInterval, t.systems[i - 1], t.actions[i - 1]);
    }
  }

  /** The answer to an open without takeover by another instance while the lease is active. */
  function Refusal(s: StoreState, q: OpenRequest): Error
    requires q.key in s.dbs
  {
    var db := s.dbs[q.key];
    if LockedOut(s, q) then SlotTaken
    else if q.pageSize != 0 && q.pageSize != db.state.pageSize then PageSizeDiffers(q.pageSize, db.state.pageSize)
    else LeaseHeld(db.grantedAt)
  }

  /** An open and a deletion without takeover are refused and change nothing, and a sweep spares the database. */
  predicate Shut(s: StoreState, k: Key, e: Event, reply: Reply, s': StoreState)
    requires k in s.dbs
  {
    match e
    case Open(q, _) => q.key == k && q.resume.None? ==> s' == s && reply == Failed(Refusal(s, q))
    case Delete(q) => q.key == k ==> s' == s && reply == Failed(LeaseHeld(s.dbs[k].grantedAt))
    case DeleteUnused(_, _, chosen) => k !in chosen
    case _ => true
  }

  lemma ActiveIsShut(s: StoreState, e: Event, k: Key, epoch: u64, at: int, ttl: int)
    requires HeldUntil(s, k, epoch, at + 1) && Legal(s, e) && MadeAt(e, at, ttl) && !Ends(s, k, epoch, e)
    ensures Shut(s, k, e, Step(s, e).1, Step(s, e).0)
  {
    if e.DeleteUnused? {
      assert forall c :: c in e.chosen ==> Unused(s, e.cutoff, c);
    } else if e.Open? && e.open.key == k && e.open.resume.None? {
      assert Put(s.dbs, k, Some(s.dbs[k])) == s.dbs;
    } else if e.Delete? && e.delete.key == k {
      assert Put(s.dbs, k, Some(s.dbs[k])) == s.dbs;
    }
  }

  /** So no other instance gets in without takeover, in any run, although most pings do not write to the store. */
  lemma OthersStayOut(t: Trace, k: Key, ttl: int, pingInterval: int, i: nat)
    requires ValidTimes(ttl, pingInterval) && IsTrace(t, k, ttl, pingInterval) && i < |t.actions|
    requires Alive(k, ttl, t.systems[0])
    ensures Alive(k, ttl, t.systems[i]) && Active(t.systems[i].store.dbs[k], TimeOf(t.actions[i]))
    ensures t.actions[i].Other? ==>
              Shut(t.systems[i].store, k, t.actions[i].event, After(k, ttl, t.systems[i], t.actions[i]).1,
                   t.systems[i + 1].store)
  {
    StaysAlive(t, k, ttl, pingInterval, i);
    assert Turn(i);
    if t.actions[i].Other? {
      ActiveIsShut(t.systems[i].store, t.actions[i].event, k, t.systems[i].client.epoch, t.actions[i].at, ttl);
    }
  }

  /** And the pings of the client itself are never refused. */
  lemma PingsSucceed(t: Trace, k: Key, ttl: int, pingInterval: int, i: nat)
    requires ValidTimes(ttl, pingInterval) && IsTrace(t, k, ttl, pingInterval) && i < |t.actions|
    requires Alive(k, ttl, t.systems[0]) && t.actions[i].Ping?
    ensures After(k, ttl, t.systems[i], t.actions[i]).1 == Done
  {
    StaysAlive(t, k, ttl, pingInterval, i);
    var c := t.systems[i].client;
    RenewExtends(t.systems[i].store, k, c.epoch, c.renewed + ttl, t.actions[i].now, ttl);
  }

  // ---- how often pings write ----

  /** A ping writes to the store exactly if half the TTL has passed since the last renewal. */
  lemma PingWritesExactly(k: Key, ttl: int, c: Client, now: int)
    ensures Sent(k, ttl, c, Ping(now)) == if now - c.renewed >= ttl / 2 then Some(Renew(k, c.epoch, now, ttl)) else None
  {
  }

  lemma RenewedGrows(k: Key, ttl: int, pingInterval: int, sys: System, a: Action)
    requires Alive(k, ttl, sys) && InTime(sys.client, a, pingInterval)
    ensures After(k, ttl, sys, a).0.client.renewed >= sys.client.renewed
  {
  }

  lemma {:induction false} RenewalNoted(t: Trace, k: Key, ttl: int, pingInterval: int, i: nat, j: nat)
    requires ValidTimes(ttl, pingInterval) && IsTrace(t, k, ttl, pingInterval) && i < j <= |t.actions|
    requires Alive(k, ttl, t.systems[0])
    requires t.actions[i].Ping? && Sent(k, ttl, t.systems[i].client, t.actions[i]).Some?
    ensures t.systems[j].client.renewed >= t.actions[i].now
    decreases j
  {
    StaysAlive(t, k, ttl, pingInterval, j - 1);
    assert Turn(j - 1);
    if j == i + 1 {
      PingsSucceed(t, k, ttl, pingInterval, i);
    } else {
      RenewalNoted(t, k, ttl, pingInterval, i, j - 1);
      RenewedGrows(k, ttl, pingInterval, t.systems[j - 1], t.actions[j - 1]);
    }
  }

  /** So between two pings that write at least half the TTL passes, however often the client pings. */
  lemma PingsWriteSeldom(t: Trace, k: Key, ttl: int, pingInterval: int, i: nat, j: nat)
    requires ValidTimes(ttl, pingInterval) && IsTrace(t, k, ttl, pingInterval) && i < j < |t.actions|
    requires Alive(k, ttl, t.systems[0]) && t.actions[i].Ping? && t.actions[j].Ping?
    requires Sent(k, ttl, t.systems[i].client, t.actions[i]).Some?
    requires Sent(k, ttl, t.systems[j].client, t.actions[j]).Some?
    ensures t.actions[j].now - t.actions[i].now >= ttl / 2
  {
    RenewalNoted(t, k, ttl, pingInterval, i, j);
  }

  // ---- refused commits ----

  const HELD := Key("alice", "db")

  function OpenBy(instance: Bytes, create: bool, now: int): Event {
    Open(OpenRequest(HELD, "", Some(instance), 512, create, false, None, now, 20), instance)
  }

  /** A commit on a version that the database never had. */
  function Futile(now: int): Event {
    Commit(CommitRequest(HELD, CommitID(7), 1, 5, 0, [], now, 20))
  }

  const FIRST := StoreState(map[HELD := Fresh(512).(lease := Lease([1], 1), holder := Some([1]), expiresAt := 20)], map[])

  lemma FirstOpen()
    ensures Step(EMPTY, OpenBy([1], true, 0)) == (FIRST, Opened(Lease([1], 1), State(512, 0, 0, []), false))
  {
  }

  lemma FutileCommit(now: int)
    ensures Step(FIRST, Futile(now)) == (FIRST, Failed(VersionConflict(0)))
  {
    assert FIRST.dbs[HELD := FIRST.dbs[HELD]] == FIRST.dbs;
  }

  lemma OpenAfterExpiry()
    ensures Step(FIRST, OpenBy([2], false, 20)).1 == Opened(Lease([2], 2), State(512, 0, 0, []), false)
  {
  }

  lemma RefusedRun() returns (run: Run)
    ensures History(run) && Last(run) == FIRST
    ensures run.events == [OpenBy([1], true, 0), Futile(10), Futile(20)]
    ensures run.replies[1].Failed? && run.replies[2].Failed?
  {
    FirstOpen();
    FutileCommit(10);
    FutileCommit(20);
    run := Extended(START, OpenBy([1], true, 0), FIRST, Opened(Lease([1], 1), State(512, 0, 0, []), false));
    run := Extended(run, Futile(10), FIRST, Failed(VersionConflict(0)));
    run := Extended(run, Futile(20), FIRST, Failed(VersionConflict(0)));
  }

  /** Only acknowledged commits count. With a TTL of 20 and a ping interval of 10, a client opens at 0 and commits at 10
      and at 20, each time refused; another instance opens at 20, without takeover, and gets the lease. */
  lemma RefusedCommitsExpire() returns (run: Run)
    ensures History(run) && |run.events| == 4 && ValidTimes(20, 10)
    ensures run.events == [OpenBy([1], true, 0), Futile(10), Futile(20), OpenBy([2], false, 20)]
    ensures run.replies[1].Failed? && run.replies[2].Failed? && run.replies[3].Opened? && !run.replies[3].revoked
  {
    run := RefusedRun();
    OpenAfterExpiry();
    var e := OpenBy([2], false, 20);
    run := Extended(run, e, Step(FIRST, e).0, Step(FIRST, e).1);
  }
}
