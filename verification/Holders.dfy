/** internal/protocol/holders.go: which connection of this server holds the lease of a database. A connection calls the
    store first and updates the map in a second step, so the steps of different connections, and the store calls of
    other servers, interleave between the two. */
module Holders {
  import opened Basics
  import opened Store
  import opened Memory
  import opened Runs
  import opened Fencing

  datatype Entry = Entry(epoch: u64, owner: nat)
  type Entries = map<Key, Entry>

  /** A LeaseRevoked push to connection `target`, which opened the database with epoch `own`. */
  datatype Push = Push(target: nat, key: Key, own: u64, newEpoch: u64)

  // ---- the map ----

  function Recorded(m: Entries, k: Key, epoch: u64, owner: nat): (Entries, Option<Push>) {
    var push := if k in m && m[k].owner != owner && m[k].epoch < epoch
                then Some(Push(m[k].owner, k, m[k].epoch, epoch)) else None;
    (m[k := Entry(epoch, owner)], push)
  }

  function Removed(m: Entries, k: Key, owner: nat): Entries {
    if k in m && m[k].owner == owner then m - {k} else m
  }

  function Revoked(m: Entries, k: Key, epoch: u64): (Entries, Option<Push>) {
    var push := if k in m && m[k].epoch < epoch then Some(Push(m[k].owner, k, m[k].epoch, epoch)) else None;
    (m - {k}, push)
  }

  /** The database was purged with its record, so there is no new epoch to name. */
  function Purged(m: Entries, k: Key): (Entries, Option<Push>) {
    (m - {k}, if k in m then Some(Push(m[k].owner, k, m[k].epoch, Inc(m[k].epoch))) else None)
  }

  // ---- the protocol ----

  /** The map step that a connection still has to take after its store call. */
  datatype Pending =
    | ToSet(key: Key, epoch: u64)
    | ToRemove(key: Key)
    | ToRevoke(key: Key, epoch: u64)
    | ToPurge(keys: seq<Key>)    // one database after the other

  /** Database `key` is open on connection `conn`. */
  datatype Handle = Handle(conn: nat, key: Key)

  datatype Server = Server(
    store: StoreState, m: Entries, opens: map<Handle, u64>, pending: map<nat, Pending>, pushes: seq<Push>)

  datatype Action =
    /** A store call without a map step: by another server, by a sweep, or of another kind. */
    | Call(event: Event)
    /** The store calls of open, closeDB, deleteDB, claimSlot and deleteSlot on connection `conn`. */
    | CallFor(conn: nat, event: Event)
    /** The map step of that handler, or one of several. */
    | Finish(conn: nat)
    /** The connection ends, and with it its use of the database. */
    | Forget(conn: nat, key: Key)

  /** A connection handles one frame at a time; it opens a database once, and deletes none that it has open. */
  ghost predicate Enabled(s: Server, a: Action) {
    match a
    case Call(e) => Legal(s.store, e)
    case CallFor(c, e) =>
      && c !in s.pending
      && (e.Open? || e.Release? || e.Delete? || e.ClaimSlot? || e.DeleteSlot?)
      && (OnDatabase(e) ==> (Handle(c, KeyOf(e)) in s.opens <==> e.Release?))
    case Finish(c) => c in s.pending
    case Forget(c, k) => c !in s.pending && Handle(c, k) in s.opens
  }

  /** The map step that the store's answer calls for. */
  function ToDo(e: Event, reply: Reply): Option<Pending> {
    match e
    case Open(q, _) => if reply.Opened? then Some(ToSet(q.key, reply.lease.epoch)) else None
    case Release(k, _) => if reply.Done? then Some(ToRemove(k)) else None
    case Delete(q) => if reply.Deleted? && reply.epoch > 0 then Some(ToRevoke(q.key, reply.epoch)) else None
    case ClaimSlot(_) => if reply.Claimed? && reply.purged != [] then Some(ToPurge(reply.purged)) else None
    case DeleteSlot(_, _) => if reply.Keys? && reply.keys != [] then Some(ToPurge(reply.keys)) else None
    case _ => None
  }

  /** What the connection does with the store's answer. */
  function Answered(s: Server, store: StoreState, c: nat, todo: Option<Pending>): Server {
    if todo.None? then s.(store := store)
    else
      var opens := match todo.value {
        case ToSet(k, epoch) => s.opens[Handle(c, k) := epoch]
        case ToRemove(k) => s.opens - {Handle(c, k)}
        case _ => s.opens };
      s.(store := store, opens := opens, pending := s.pending[c := todo.value])
  }

  /** The map step, the push it sends, and what is then left to do. */
  function MapStep(m: Entries, c: nat, p: Pending): (Entries, Option<Push>, Option<Pending>) {
    match p
    case ToSet(k, epoch) => var (m', push) := Recorded(m, k, epoch, c); (m', push, None)
    case ToRemove(k) => (Removed(m, k, c), None, None)
    case ToRevoke(k, epoch) => var (m', push) := Revoked(m, k, epoch); (m', push, None)
    case ToPurge(keys) =>
      if keys == [] then (m, None, None)
      else
        var (m', push) := Purged(m, keys[0]);
        (m', push, if |keys| == 1 then None else Some(ToPurge(keys[1..])))
  }

  function Finished(s: Server, c: nat): Server
    requires c in s.pending
  {
    var (m, push, rest) := MapStep(s.m, c, s.pending[c]);
    s.(m := m, pending := if rest.None? then s.pending - {c} else s.pending[c := rest.value],
       pushes := if push.Some? then s.pushes + [push.value] else s.pushes)
  }

  ghost function Next(s: Server, a: Action): Server
    requires Enabled(s, a)
  {
    match a
    case Call(e) => s.(store := Step(s.store, e).0)
    case CallFor(c, e) => Answered(s, Step(s.store, e).0, c, ToDo(e, Step(s.store, e).1))
    case Finish(c) => Finished(s, c)
    case Forget(c, k) => s.(m := Removed(s.m, k, c), opens := s.opens - {Handle(c, k)})
  }

  // ---- the invariant ----

  /** The key's epoch in the store has reached `epoch`. */
  predicate Reached(store: StoreState, k: Key, epoch: u64) {
    k in store.dbs && epoch <= store.dbs[k].lease.epoch
  }

  /** A map step for `k` is not ahead of the store, and it does not purge `k`. */
  predicate PendingBehind(store: StoreState, p: Pending, k: Key) {
    match p
    case ToSet(key, epoch) => key == k ==> Reached(store, k, epoch)
    case ToRemove(_) => true
    case ToRevoke(key, epoch) => key == k ==> Reached(store, k, epoch)
    case ToPurge(keys) => k !in keys
  }

  /** The push names a higher epoch than the target's own, and the store has reached it: the target is fenced. */
  predicate Late(store: StoreState, p: Push) {
    p.own < p.newEpoch && Reached(store, p.key, p.newEpoch)
  }

  ghost predicate Bounded(s: Server, k: Key) {
    && (k in s.m ==> Reached(s.store, k, s.m[k].epoch))
    && (forall c :: c in s.pending ==> PendingBehind(s.store, s.pending[c], k))
    && (forall i :: 0 <= i < |s.pushes| && s.pushes[i].key == k ==> Late(s.store, s.pushes[i]))
  }

  /** `own` is the epoch with which `c` has `k` open; or `c` is about to remove itself, having released its lease. */
  predicate OwnEpoch(s: Server, c: nat, k: Key, own: u64) {
    if Handle(c, k) in s.opens then s.opens[Handle(c, k)] == own else c in s.pending && s.pending[c] == ToRemove(k)
  }

  ghost predicate EntriesOwned(s: Server) {
    forall k :: k in s.m ==> OwnEpoch(s, s.m[k].owner, k, s.m[k].epoch)
  }

  ghost predicate SetsOwned(s: Server) {
    forall c :: c in s.pending && s.pending[c].ToSet? ==>
      Handle(c, s.pending[c].key) in s.opens && s.opens[Handle(c, s.pending[c].key)] == s.pending[c].epoch
  }

  /** No open database has an entry to remove, so a connection never removes what it opened again. */
  ghost predicate RemovesClosed(s: Server) {
    forall c :: c in s.pending && s.pending[c].ToRemove? ==> Handle(c, s.pending[c].key) !in s.opens
  }

  ghost predicate Owned(s: Server) { EntriesOwned(s) && SetsOwned(s) && RemovesClosed(s) }

  /** The database does not lose its record. */
  predicate Stays(before: StoreState, after: StoreState, k: Key) {
    k in before.dbs ==> k in after.dbs
  }

  /** The epoch of `k` does not go back. */
  ghost predicate Grows(before: StoreState, after: StoreState, k: Key) {
    forall e :: Reached(before, k, e) ==> Reached(after, k, e)
  }

  lemma StepGrows(s: StoreState, e: Event, k: Key, n: nat, s': StoreState)
    requires Legal(s, e) && Step(s, e).0 == s' && GoodState(s, n) && n < MAX64 && Stays(s, s', k)
    ensures Grows(s, s', k)
  {
    if k in s.dbs { StepMoves(s, e, k); }
  }

  /** The epoch in an answer is the one in the store. */
  lemma DatabaseToDo(s: StoreState, e: Event, s': StoreState, reply: Reply, k: Key)
    requires OnDatabase(e) && Step(s, e) == (s', reply)
    ensures ToDo(e, reply).Some? ==> PendingBehind(s', ToDo(e, reply).value, k)
  {
  }

  /** The databases to purge from the map have lost their records. */
  lemma PurgedGone(s: StoreState, e: Event, s': StoreState, reply: Reply, k: Key)
    requires (e.ClaimSlot? || e.DeleteSlot?) && Step(s, e) == (s', reply)
    requires ToDo(e, reply).Some? && k in ToDo(e, reply).value.keys
    ensures k in s.dbs && k !in s'.dbs
  {
  }

  lemma ToDoBehind(s: StoreState, e: Event, s': StoreState, reply: Reply, k: Key)
    requires e.Open? || e.Release? || e.Delete? || e.ClaimSlot? || e.DeleteSlot?
    requires Step(s, e) == (s', reply) && Stays(s, s', k)
    ensures ToDo(e, reply).Some? ==> PendingBehind(s', ToDo(e, reply).value, k)
  {
    if OnDatabase(e) {
      DatabaseToDo(s, e, s', reply, k);
    } else if ToDo(e, reply).Some? && k in ToDo(e, reply).value.keys {
      PurgedGone(s, e, s', reply, k);
    }
  }

  lemma AnsweredBounded(s: Server, store: StoreState, c: nat, todo: Option<Pending>, k: Key)
    requires Bounded(s, k) && Grows(s.store, store, k)
    requires todo.Some? ==> PendingBehind(store, todo.value, k)
    ensures Bounded(Answered(s, store, c, todo), k)
  {
  }

  lemma AnsweredOwned(s: Server, store: StoreState, c: nat, todo: Option<Pending>)
    requires Owned(s) && c !in s.pending
    requires todo.Some? && todo.value.ToSet? ==> Handle(c, todo.value.key) !in s.opens
    ensures Owned(Answered(s, store, c, todo))
  {
  }

  lemma FinishedBounded(s: Server, c: nat, k: Key)
    requires c in s.pending && Bounded(s, k)
    ensures Bounded(Finished(s, c), k)
  {
    assert PendingBehind(s.store, s.pending[c], k);
  }

  lemma FinishedOwned(s: Server, c: nat)
    requires c in s.pending && Owned(s)
    ensures Owned(Finished(s, c))
  {
  }

  lemma NextBounded(s: Server, a: Action, n: nat, k: Key)
    requires Enabled(s, a) && GoodState(s.store, n) && n < MAX64 && Stays(s.store, Next(s, a).store, k)
    requires Bounded(s, k)
    ensures Bounded(Next(s, a), k)
  {
    match a
    case Call(e) => StepGrows(s.store, e, k, n, Step(s.store, e).0);
    case CallFor(c, e) =>
      var (store, reply) := Step(s.store, e);
      StepGrows(s.store, e, k, n, store);
      ToDoBehind(s.store, e, store, reply, k);
      AnsweredBounded(s, store, c, ToDo(e, reply), k);
    case Finish(c) => FinishedBounded(s, c, k);
    case Forget(_, _) =>
  }

  lemma NextOwned(s: Server, a: Action)
    requires Enabled(s, a) && Owned(s)
    ensures Owned(Next(s, a))
  {
    match a
    case CallFor(c, e) => AnsweredOwned(s, Step(s.store, e).0, c, ToDo(e, Step(s.store, e).1));
    case Finish(c) => FinishedOwned(s, c);
    case _ =>
  }

  // ---- the object ----

  /** The map with the server around it: `server` is the state of the protocol, of which `m` is the part in this object.
      A method returns the push that it sends from a new goroutine. */
  class Table {
    var m: Entries
    ghost var server: Server

    ghost predicate Valid()
      reads this
    {
      m == server.m && Owned(server)
    }

    constructor ()
      ensures Valid() && server == FRESH_SERVER
    {
      m, server := map[], FRESH_SERVER;
    }

    /** A step of the server that leaves the map alone. */
    ghost method Elsewhere(a: Action)
      requires Valid() && Enabled(server, a) && (a.Call? || a.CallFor?)
      modifies this`server
      ensures Valid() && server == Next(old(server), a)
    {
      NextOwned(server, a);
      server := Next(server, a);
    }

    /** The step of connection `c` that was pending is taken, and `push` is what it sent: to a connection under the epoch
        of its own open; and if nothing about its database was ahead of the store, that is still so, and the target is
        fenced. */
    twostate predicate Took(c: nat, new push: Option<Push>)
      reads this
    {
      && Valid() && c in old(server).pending && server == Finished(old(server), c)
      && (push.None? ==> server.pushes == old(server).pushes)
      && (push.Some? ==>
            && server.pushes == old(server).pushes + [push.value]
            && OwnEpoch(old(server), push.value.target, push.value.key, push.value.own)
            && (old(Bounded(server, push.value.key)) ==> Late(server.store, push.value)))
    }

    ghost method Note(c: nat, push: Option<Push>)
      requires Owned(server) && c in server.pending && Finished(server, c).m == m
      requires push == MapStep(server.m, c, server.pending[c]).1
      modifies this`server
      ensures Valid() && server == Finished(old(server), c)
      ensures push.Some? ==> OwnEpoch(old(server), push.value.target, push.value.key, push.value.own)
      ensures push.Some? && old(Bounded(server, push.value.key)) ==> Late(server.store, push.value)
    {
      FinishedOwned(server, c);
      if push.Some? && Bounded(server, push.value.key) { FinishedBounded(server, c, push.value.key); }
      ghost var before := server;
      server := Finished(server, c);
      assert push.Some? ==> server.pushes[|before.pushes|] == push.value;
    }

    method Set(k: Key, epoch: u64, owner: nat) returns (push: Option<Push>)
      requires Valid() && owner in server.pending && server.pending[owner] == ToSet(k, epoch)
      modifies this
      ensures Took(owner, push) && m == old(m)[k := Entry(epoch, owner)]
      ensures push == if k in old(m) && old(m)[k].owner != owner && old(m)[k].epoch < epoch
                      then Some(Push(old(m)[k].owner, k, old(m)[k].epoch, epoch)) else None
    {
      var ok := k in m;
      var previous := if ok then m[k] else Entry(0, 0);
      m := m[k := Entry(epoch, owner)];
      push := None;
      if ok && previous.owner != owner && previous.epoch < epoch {
        push := Some(Push(previous.owner, k, previous.epoch, epoch));
      }
      Note(owner, push);
    }

    /** Called by closeDB after the release, and when the connection ends. */
    method Remove(k: Key, owner: nat, ghost a: Action)
      requires Valid() && Enabled(server, a)
      requires (a == Finish(owner) && server.pending[owner] == ToRemove(k)) || a == Forget(owner, k)
      modifies this
      ensures Valid() && server == Next(old(server), a) && server.pushes == old(server).pushes
      ensures k in m ==> m[k].owner != owner
      ensures forall j :: j in old(m) && (j != k || old(m)[j].owner != owner) ==> j in m && m[j] == old(m)[j]
    {
      if k in m && m[k].owner == owner { m := m - {k}; }
      NextOwned(server, a);
      server := Next(server, a);
    }

    method Purge(k: Key, owner: nat) returns (push: Option<Push>)
      requires Valid() && owner in server.pending && server.pending[owner].ToPurge?
      requires server.pending[owner].keys != [] && server.pending[owner].keys[0] == k
      modifies this
      ensures Took(owner, push) && m == old(m) - {k}
      ensures push == if k in old(m) then Some(Push(old(m)[k].owner, k, old(m)[k].epoch, Inc(old(m)[k].epoch))) else None
    {
      var ok := k in m;
      var previous := if ok then m[k] else Entry(0, 0);
      m := m - {k};
      push := if ok then Some(Push(previous.owner, k, previous.epoch, Inc(previous.epoch))) else None;
      Note(owner, push);
    }

    method Revoke(k: Key, epoch: u64, owner: nat) returns (push: Option<Push>)
      requires Valid() && owner in server.pending && server.pending[owner] == ToRevoke(k, epoch)
      modifies this
      ensures Took(owner, push) && m == old(m) - {k}
      ensures push == if k in old(m) && old(m)[k].epoch < epoch
                      then Some(Push(old(m)[k].owner, k, old(m)[k].epoch, epoch)) else None
    {
      var ok := k in m;
      var previous := if ok then m[k] else Entry(0, 0);
      m := m - {k};
      push := None;
      if ok && previous.epoch < epoch { push := Some(Push(previous.owner, k, previous.epoch, epoch)); }
      Note(owner, push);
    }
  }

  // ---- whole runs ----

  datatype ServerRun = ServerRun(states: seq<Server>, actions: seq<Action>)

  const FRESH_SERVER := Server(EMPTY, map[], map[], map[], [])

  ghost predicate IsServerRun(run: ServerRun) {
    && |run.states| == |run.actions| + 1 && run.states[0] == FRESH_SERVER && |run.actions| <= MAX64
    && forall i {:trigger Turn(i)} :: 0 <= i < |run.actions| ==>
         Enabled(run.states[i], run.actions[i]) && Next(run.states[i], run.actions[i]) == run.states[i + 1]
  }

  /** No call up to state `j` purges the database `k`. */
  ghost predicate NeverPurged(run: ServerRun, k: Key, j: nat)
    requires j < |run.states|
  {
    forall i {:trigger Turn(i)} :: 0 <= i < j ==> Stays(run.states[i].store, run.states[i + 1].store, k)
  }

  lemma NextGood(s: Server, a: Action, n: nat)
    requires Enabled(s, a) && GoodState(s.store, n) && n < MAX64
    ensures GoodState(Next(s, a).store, n + 1)
  {
    match a
    case Call(e) => StepGood(s.store, e, n);
    case CallFor(_, e) => StepGood(s.store, e, n);
    case _ =>
  }

  lemma {:induction false} RunGoodStore(run: ServerRun, i: nat)
    requires IsServerRun(run) && i < |run.states|
    ensures GoodState(run.states[i].store, i)
  {
    if i > 0 {
      RunGoodStore(run, i - 1);
      assert Turn(i - 1);
      NextGood(run.states[i - 1], run.actions[i - 1], i - 1);
    }
  }

  lemma {:induction false} RunBounded(run: ServerRun, k: Key, i: nat)
    requires IsServerRun(run) && i < |run.states| && NeverPurged(run, k, i)
    ensures Bounded(run.states[i], k)
  {
    if i > 0 {
      assert NeverPurged(run, k, i - 1) by {
        forall m | 0 <= m < i - 1 ensures Stays(run.states[m].store, run.states[m + 1].store, k) { assert Turn(m); }
      }
      RunBounded(run, k, i - 1);
      RunGoodStore(run, i - 1);
      assert Turn(i - 1);
      NextBounded(run.states[i - 1], run.actions[i - 1], i - 1, k);
    }
  }

  lemma {:induction false} RunOwned(run: ServerRun, i: nat)
    requires IsServerRun(run) && i < |run.states|
    ensures Owned(run.states[i])
  {
    if i > 0 {
      RunOwned(run, i - 1);
      assert Turn(i - 1);
      NextOwned(run.states[i - 1], run.actions[i - 1]);
    }
  }

  /** Every push for a database that is never purged, from the moment it is sent on, names an epoch higher than the
      target's own, and whatever the target then asks of the store under its own epoch is refused and changes nothing. */
  lemma PushedIsFenced(run: ServerRun, i: nat, n: nat, e: Event)
    requires IsServerRun(run) && i < |run.states| && n < |run.states[i].pushes|
    requires NeverPurged(run, run.states[i].pushes[n].key, i)
    requires OnDatabase(e) && KeyOf(e) == run.states[i].pushes[n].key
    requires Presented(e) == Some(run.states[i].pushes[n].own)
    ensures run.states[i].pushes[n].own < run.states[i].pushes[n].newEpoch
    ensures Step(run.states[i].store, e).1.Failed? && Step(run.states[i].store, e).0 == run.states[i].store
  {
    RunBounded(run, KeyOf(e), i);
    assert Late(run.states[i].store, run.states[i].pushes[n]);
    Fencing.Refused(run.states[i].store, e);
  }

  /** Nothing was pushed, or one push to a connection under the epoch of its own open. */
  ghost predicate PushesToOwner(s: Server, s': Server) {
    s'.pushes == s.pushes || exists p :: s'.pushes == s.pushes + [p] && OwnEpoch(s, p.target, p.key, p.own)
  }

  lemma FinishPushes(s: Server, c: nat)
    requires c in s.pending && EntriesOwned(s)
    ensures PushesToOwner(s, Finished(s, c))
  {
    var s' := Finished(s, c);
    if s'.pushes != s.pushes {
      var p := s'.pushes[|s.pushes|];
      assert s'.pushes == s.pushes + [p] && p.key in s.m;
    }
  }

  lemma NextPushes(s: Server, a: Action)
    requires Enabled(s, a) && EntriesOwned(s)
    ensures PushesToOwner(s, Next(s, a))
  {
    if a.Finish? { FinishPushes(s, a.conn); }
  }

  /** Pushes are only added, and the epoch in a new one is that of the target's own open, unless the target has just
      closed the database. This holds with purges too. */
  lemma PushedToOwner(run: ServerRun, i: nat)
    requires IsServerRun(run) && i < |run.actions|
    ensures PushesToOwner(run.states[i], run.states[i + 1])
  {
    RunOwned(run, i);
    assert Turn(i);
    NextPushes(run.states[i], run.actions[i]);
  }

  // ---- every call reaches the map ----

  lemma NextKeepsPending(s: Server, a: Action, c: nat)
    requires Enabled(s, a) && c in s.pending && a != Finish(c)
    ensures c in Next(s, a).pending && Next(s, a).pending[c] == s.pending[c]
  {
  }

  /** Connection `c` takes its map step in action `j`, and not between `i` and `j`. */
  predicate FinishesAt(run: ServerRun, c: nat, i: nat, j: nat) {
    i < j < |run.actions| && run.actions[j] == Finish(c) && forall m :: i < m < j ==> run.actions[m] != Finish(c)
  }

  lemma {:induction false} PendingStays(run: ServerRun, c: nat, i: nat, j: nat)
    requires IsServerRun(run) && i < j < |run.states| && c in run.states[i + 1].pending
    requires forall m :: i < m < j ==> run.actions[m] != Finish(c)
    ensures c in run.states[j].pending && run.states[j].pending[c] == run.states[i + 1].pending[c]
    decreases j
  {
    if i + 1 < j {
      PendingStays(run, c, i, j - 1);
      assert Turn(j - 1);
      NextKeepsPending(run.states[j - 1], run.actions[j - 1], c);
    }
  }

  lemma CallLeavesToDo(s: Server, c: nat, e: Event, s': Server)
    requires Enabled(s, CallFor(c, e)) && Next(s, CallFor(c, e)) == s'
    ensures var todo := ToDo(e, Step(s.store, e).1);
            todo.Some? ==> c in s'.pending && s'.pending[c] == todo.value
  {
  }

  /** The call of action `i` leaves this to do, and action `j` does it. */
  lemma StepTaken(run: ServerRun, c: nat, e: Event, i: nat, j: nat)
    requires IsServerRun(run) && FinishesAt(run, c, i, j) && run.actions[i] == CallFor(c, e)
    ensures var todo := ToDo(e, Step(run.states[i].store, e).1);
            todo.Some? ==> && c in run.states[j].pending && run.states[j].pending[c] == todo.value
                           && run.states[j + 1] == Finished(run.states[j], c)
  {
    if ToDo(e, Step(run.states[i].store, e).1).Some? {
      assert Turn(i);
      CallLeavesToDo(run.states[i], c, e, run.states[i + 1]);
      PendingStays(run, c, i, j);
      assert Turn(j);
      assert Next(run.states[j], run.actions[j]) == Finished(run.states[j], c);
    }
  }

  /** What one map step did: the entry of `k`, no other one, and the push to its holder if `told`. */
  ghost predicate Changed(s: Server, s': Server, k: Key, entry: Option<Entry>, told: bool, newEpoch: u64)
    requires told ==> k in s.m
  {
    && s'.m == (if entry.Some? then s.m[k := entry.value] else s.m - {k}) && s'.store == s.store && s'.opens == s.opens
    && s'.pushes == if told then s.pushes + [Push(s.m[k].owner, k, s.m[k].epoch, newEpoch)] else s.pushes
  }

  /** In every interleaving, a connection that got a lease is entered as holder when it takes its map step, and whoever
      was entered with an older epoch is told the new one. */
  lemma OpenIsEntered(run: ServerRun, c: nat, q: OpenRequest, id: Bytes, i: nat, j: nat)
    requires IsServerRun(run) && FinishesAt(run, c, i, j) && run.actions[i] == CallFor(c, Open(q, id))
    requires Step(run.states[i].store, Open(q, id)).1.Opened?
    ensures var s, epoch := run.states[j], Step(run.states[i].store, Open(q, id)).1.lease.epoch;
            Changed(s, run.states[j + 1], q.key, Some(Entry(epoch, c)),
                    q.key in s.m && s.m[q.key].owner != c && s.m[q.key].epoch < epoch, epoch)
  {
    StepTaken(run, c, Open(q, id), i, j);
  }

  /** One that released its lease is no longer holder, and nobody is told. */
  lemma ReleaseIsRemoved(run: ServerRun, c: nat, k: Key, epoch: u64, i: nat, j: nat)
    requires IsServerRun(run) && FinishesAt(run, c, i, j) && run.actions[i] == CallFor(c, Release(k, epoch))
    requires Step(run.states[i].store, Release(k, epoch)).1 == Done
    ensures var s, s' := run.states[j], run.states[j + 1];
            if k in s.m && s.m[k].owner == c then Changed(s, s', k, None, false, 0)
            else s'.m == s.m && s'.pushes == s.pushes
  {
    StepTaken(run, c, Release(k, epoch), i, j);
  }

  /** After a deletion nobody is holder, and whoever was with an older epoch is told the new one. */
  lemma DeletionIsTold(run: ServerRun, c: nat, q: DeleteRequest, i: nat, j: nat)
    requires IsServerRun(run) && FinishesAt(run, c, i, j) && run.actions[i] == CallFor(c, Delete(q))
    requires var reply := Step(run.states[i].store, Delete(q)).1; reply.Deleted? && reply.epoch > 0
    ensures var s, epoch := run.states[j], Step(run.states[i].store, Delete(q)).1.epoch;
            Changed(s, run.states[j + 1], q.key, None, q.key in s.m && s.m[q.key].epoch < epoch, epoch)
  {
    StepTaken(run, c, Delete(q), i, j);
  }

  /** A purge tells the holders of the purged databases one after the other. */
  lemma PurgeIsTold(s: Server, c: nat, keys: seq<Key>)
    requires c in s.pending && s.pending[c] == ToPurge(keys) && keys != []
    ensures var k, s' := keys[0], Finished(s, c);
            && Changed(s, s', k, None, k in s.m, if k in s.m then Inc(s.m[k].epoch) else 0)
            && (if |keys| == 1 then c !in s'.pending else c in s'.pending && s'.pending[c] == ToPurge(keys[1..]))
  {
  }

  /** The databases that a claim or a slot deletion has purged, by its answer. */
  function PurgedBy(reply: Reply): seq<Key> {
    if reply.Claimed? then reply.purged else if reply.Keys? then reply.keys else []
  }

  lemma PurgesToDo(e: Event, store: StoreState, reply: Reply)
    requires (e.ClaimSlot? || e.DeleteSlot?) && Step(store, e).1 == reply
    ensures ToDo(e, reply) == if PurgedBy(reply) == [] then None else Some(ToPurge(PurgedBy(reply)))
  {
  }

  /** And a claim or a slot deletion leaves exactly its purged databases to be told. */
  lemma PurgeIsPending(s: Server, c: nat, e: Event)
    requires Enabled(s, CallFor(c, e)) && (e.ClaimSlot? || e.DeleteSlot?)
    ensures var keys := PurgedBy(Step(s.store, e).1);
            Next(s, CallFor(c, e)).pending == if keys == [] then s.pending else s.pending[c := ToPurge(keys)]
  {
    PurgesToDo(e, s.store, Step(s.store, e).1);
  }

  // ---- with a purge ----

  const PURGE := DeleteSlot("o", "alice")
  const OPENED := Server(Created([1]), map[], map[Handle(1, LOST) := 1], map[1 := ToSet(LOST, 1)], [])
  const DELETING := OPENED.(store := DELETED, pending := OPENED.pending[2 := ToRevoke(LOST, 2)])
  const PURGED := DELETING.(store := EMPTY)
  const RECREATED := PURGED.(store := Created([2]), opens := PURGED.opens[Handle(3, LOST) := 1],
                             pending := PURGED.pending[3 := ToSet(LOST, 1)])

  lemma FirstCalls()
    ensures Next(FRESH_SERVER, CallFor(1, Create([1]))) == OPENED
    ensures Enabled(OPENED, CallFor(2, DELETION)) && Next(OPENED, CallFor(2, DELETION)) == DELETING
  {
    CreateStep([1]);
    DeleteStep();
  }

  lemma LaterCalls()
    ensures Next(DELETING, Call(PURGE)) == PURGED
    ensures Enabled(PURGED, CallFor(3, Create([2]))) && Next(PURGED, CallFor(3, Create([2]))) == RECREATED
  {
    PurgeStep(DELETED);
    CreateStep([2]);
  }

  lemma LateRevoke()
    ensures var s := Finished(RECREATED, 3);
            2 in s.pending && Finished(s, 2).pushes == [Push(3, LOST, 1, 2)] && Finished(s, 2).store == Created([2])
  {
  }

  function Continued(run: ServerRun, a: Action, s: Server): ServerRun {
    ServerRun(run.states + [s], run.actions + [a])
  }

  lemma ContinuedRun(run: ServerRun, a: Action, s: Server)
    requires IsServerRun(run) && |run.actions| < 10
    requires Enabled(run.states[|run.actions|], a) && Next(run.states[|run.actions|], a) == s
    ensures IsServerRun(Continued(run, a, s))
  {
    var longer := Continued(run, a, s);
    forall i | 0 <= i < |longer.actions|
      ensures Enabled(longer.states[i], longer.actions[i]) && Next(longer.states[i], longer.actions[i]) == longer.states[i + 1]
    {
      if i < |run.actions| { assert Turn(i); }
    }
  }

  lemma DeletingRun() returns (run: ServerRun)
    ensures IsServerRun(run) && |run.actions| == 2 && run.states[2] == DELETING
  {
    FirstCalls();
    run := ServerRun([FRESH_SERVER], []);
    ContinuedRun(run, CallFor(1, Create([1])), OPENED);
    run := Continued(run, CallFor(1, Create([1])), OPENED);
    ContinuedRun(run, CallFor(2, DELETION), DELETING);
    run := Continued(run, CallFor(2, DELETION), DELETING);
  }

  lemma RecreatedRun() returns (run: ServerRun)
    ensures IsServerRun(run) && |run.actions| == 4 && run.states[4] == RECREATED
  {
    run := DeletingRun();
    LaterCalls();
    ContinuedRun(run, Call(PURGE), PURGED);
    run := Continued(run, Call(PURGE), PURGED);
    ContinuedRun(run, CallFor(3, Create([2])), RECREATED);
    run := Continued(run, CallFor(3, Create([2])), RECREATED);
  }

  /** The record must stay. Here connection 1 opens, and connection 2 deletes and is slow to update the map. The key's
      databases are purged, and connection 3 creates the database anew. When connection 2 then revokes, connection 3
      gets a push, although its lease is valid and its commit succeeds. */
  lemma PurgeMisleads() returns (run: ServerRun, p: Push, q: CommitRequest)
    ensures IsServerRun(run) && |run.actions| == 6 && run.states[6].pushes == [p]
    ensures OwnEpoch(run.states[6], p.target, p.key, p.own)
    ensures q.key == p.key && q.leaseEpoch == p.own && Step(run.states[6].store, Commit(q)).1.Committed?
  {
    run := RecreatedRun();
    LateRevoke();
    LateStep();
    var set3 := Finished(RECREATED, 3);
    ContinuedRun(run, Finish(3), set3);
    run := Continued(run, Finish(3), set3);
    ContinuedRun(run, Finish(2), Finished(set3, 2));
    run := Continued(run, Finish(2), Finished(set3, 2));
    p, q := Push(3, LOST, 1, 2), LATE;
  }
}
