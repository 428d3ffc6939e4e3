/** What an open answers, and how a database passes from one client to the next: the calls of a store one after the other,
    in terms of the stored values alone. */
module Leases {
  import opened Basics
  import opened Store
  import opened Memory
  import opened Runs

  /** The owner's slot, if there is one, belongs to the key. */
  predicate Entitled(s: StoreState, q: OpenRequest) {
    q.owner == "" || q.owner !in s.slots || s.slots[q.owner].subject == q.key.subject
  }

  predicate FitsPages(db: Record, q: OpenRequest) {
    q.pageSize == 0 || q.pageSize == db.state.pageSize
  }

  predicate Live(s: StoreState, k: Key) {
    k in s.dbs && !s.dbs[k].deleted
  }

  /** The lease is held at `now`, and not by the instance of the request. */
  predicate HeldByOther(db: Record, q: OpenRequest) {
    && db.holder.Some? && q.now < db.expiresAt
    && db.holder.value != if q.instance.Some? then q.instance.value else []
  }

  /** An open of a live database is refused exactly if another instance holds an active lease and there is no takeover;
      it then learns since when, and nothing changes. Otherwise it gets the next epoch, and learns whether it took the
      lease from somebody. */
  lemma OpenLive(s: StoreState, q: OpenRequest, id: Bytes)
    requires Entitled(s, q) && Live(s, q.key) && FitsPages(s.dbs[q.key], q) && q.resume.None?
    ensures var (s', reply) := Step(s, Open(q, id));
            var db := s.dbs[q.key];
            if HeldByOther(db, q) && !q.takeover then s' == s && reply == Failed(LeaseHeld(db.grantedAt))
            else
              && reply == Opened(Lease(id, Inc(db.lease.epoch)), db.state, db.holder.Some? && q.now < db.expiresAt)
              && s'.slots == s.slots
              && s'.dbs == s.dbs[q.key := Record(false, db.state, db.blocks, db.changes, Lease(id, Inc(db.lease.epoch)),
                                                 q.instance, q.now, q.now + q.ttl)]
  {
    assert s.dbs[q.key := s.dbs[q.key]] == s.dbs;
  }

  /** A resume succeeds exactly if the lease is still held under its ID and epoch, however long ago it expired. */
  lemma ResumeExactly(s: StoreState, q: OpenRequest, id: Bytes)
    requires Entitled(s, q) && Live(s, q.key) && FitsPages(s.dbs[q.key], q) && q.resume.Some?
    ensures var (s', reply) := Step(s, Open(q, id));
            var db := s.dbs[q.key];
            if db.holder.Some? && db.lease == Lease(q.resume.value.leaseID, q.resume.value.leaseEpoch) then
              && reply == Opened(db.lease, db.state, false)
              && s' == s.(dbs := s.dbs[q.key := db.(expiresAt := q.now + q.ttl)])
            else s' == s && reply == Failed(Fenced)
  {
    assert s.dbs[q.key := s.dbs[q.key]] == s.dbs;
  }

  /** An empty database for the request, with these counters. */
  function NewDatabase(q: OpenRequest, id: Bytes, epoch: u64, version: u64): Record {
    Record(false, State(q.pageSize, 0, version, []), map[], [], Lease(id, epoch), q.instance, q.now, q.now + q.ttl)
  }

  /** An open creates a database exactly if there is no live one, it asks for it, does not resume, and names a valid page
      size. The new database is empty and goes on with the counters of a deleted one. */
  lemma CreateExactly(s: StoreState, q: OpenRequest, id: Bytes)
    requires Entitled(s, q) && !Live(s, q.key) && (q.key in s.dbs ==> Good(s.dbs[q.key]))
    ensures var (s', reply) := Step(s, Open(q, id));
            if q.create && q.resume.None? && ValidPageSize(q.pageSize) then
              var epoch := if q.key in s.dbs then Inc(s.dbs[q.key].lease.epoch) else 1;
              var version := if q.key in s.dbs then s.dbs[q.key].state.version else 0;
              && reply == Opened(Lease(id, epoch), State(q.pageSize, 0, version, []), false)
              && s' == s.(dbs := s.dbs[q.key := NewDatabase(q, id, epoch, version)])
            else s' == s && reply.Failed?
  {
    if q.key in s.dbs { assert s.dbs[q.key := s.dbs[q.key]] == s.dbs; }
  }

  /** What refuses an open before its lease is looked at. */
  lemma OpenRefused(s: StoreState, q: OpenRequest, id: Bytes)
    ensures !Entitled(s, q) ==> Step(s, Open(q, id)) == (s, Failed(SlotTaken))
    ensures Entitled(s, q) && Live(s, q.key) && !FitsPages(s.dbs[q.key], q) ==>
              Step(s, Open(q, id)) == (s, Failed(PageSizeDiffers(q.pageSize, s.dbs[q.key].state.pageSize)))
    ensures Entitled(s, q) && !Live(s, q.key) && q.resume.Some? ==>
              Step(s, Open(q, id)) == (s, Failed(if q.key in s.dbs then Fenced else NotFound))
    ensures Entitled(s, q) && !Live(s, q.key) && q.resume.None? && !q.create ==>
              Step(s, Open(q, id)) == (s, Failed(NotFound))
  {
    if q.key in s.dbs { assert s.dbs[q.key := s.dbs[q.key]] == s.dbs; }
  }

  // ---- one client after the other ----

  /** A renewal or a release is answered exactly for the holder, and does what it says. */
  lemma HolderCalls(s: StoreState, k: Key, epoch: u64, now: int, ttl: int)
    requires k in s.dbs
    ensures var db := s.dbs[k];
            if db.holder.Some? && db.lease.epoch == epoch then
              && Step(s, Renew(k, epoch, now, ttl)) == (s.(dbs := s.dbs[k := db.(expiresAt := now + ttl)]), Done)
              && Step(s, Release(k, epoch)) == (s.(dbs := s.dbs[k := db.(holder := None)]), Done)
            else
              && Step(s, Renew(k, epoch, now, ttl)) == (s, Failed(Fenced))
              && Step(s, Release(k, epoch)) == (s, Failed(Fenced))
  {
    assert s.dbs[k := s.dbs[k]] == s.dbs;
  }

  /** After a release, any instance opens the database without takeover, takes it from nobody, and finds the state that
      the other left. */
  lemma ReleasedIsFree(s: StoreState, k: Key, epoch: u64, q: OpenRequest, id: Bytes)
    requires Live(s, k) && q.key == k && Entitled(s, q) && FitsPages(s.dbs[k], q) && q.resume.None?
    requires Step(s, Release(k, epoch)).1 == Done
    ensures Step(Step(s, Release(k, epoch)).0, Open(q, id)).1
            == Opened(Lease(id, Inc(s.dbs[k].lease.epoch)), s.dbs[k].state, false)
  {
    HolderCalls(s, k, epoch, 0, 0);
    OpenLive(Step(s, Release(k, epoch)).0, q, id);
  }

  /** A deletion is refused exactly if a lease is active and there is no takeover. */
  lemma DeleteExactly(s: StoreState, q: DeleteRequest)
    ensures var (s', reply) := Step(s, Delete(q));
            if !Live(s, q.key) then s' == s && reply == Deleted(0, false)
            else
              var db := s.dbs[q.key];
              var active := db.holder.Some? && q.now < db.expiresAt;
              if active && !q.takeover then s' == s && reply == Failed(LeaseHeld(db.grantedAt))
              else
                && reply == Deleted(Inc(db.lease.epoch), active)
                && s' == s.(dbs := s.dbs[q.key := s'.dbs[q.key]]) && q.key in s'.dbs && s'.dbs[q.key].deleted
  {
    if q.key in s.dbs { assert s.dbs[q.key := s.dbs[q.key]] == s.dbs; }
  }

  /** What a client that still knows a deleted database gets: nothing is found, and its lease is fenced. */
  lemma DeletedIsGone(s: StoreState, q: DeleteRequest, e: Event, s': StoreState)
    requires Live(s, q.key) && Step(s, Delete(q)).0 == s' && Step(s, Delete(q)).1.Deleted?
    requires OnDatabase(e) && KeyOf(e) == q.key && !e.Open?
    ensures Step(s', e).0 == s'
    ensures Step(s', e).1 == match e
                             case Fetch(_, _, _, _) => Failed(NotFound)
                             case Changes(_, _) => Failed(NotFound)
                             case Delete(_) => Deleted(0, false)
                             case _ => Failed(Fenced)
  {
    assert s'.dbs[q.key := s'.dbs[q.key]] == s'.dbs;
  }

  /** A database that is deleted and created again is empty: no blocks, no log, and a version and an epoch that no client
      of the old one has seen. */
  lemma RecreatedIsEmpty(s: StoreState, d: DeleteRequest, q: OpenRequest, id: Bytes)
    requires Live(s, d.key) && Step(s, Delete(d)).1.Deleted? && q.key == d.key && q.create && q.resume.None?
    requires Entitled(s, q) && ValidPageSize(q.pageSize)
    ensures var (s', reply) := Step(Step(s, Delete(d)).0, Open(q, id));
            var was := s.dbs[d.key];
            && reply == Opened(Lease(id, Inc(Inc(was.lease.epoch))),
                               State(q.pageSize, 0, Inc(was.state.version), []), false)
            && q.key in s'.dbs && !s'.dbs[q.key].deleted && s'.dbs[q.key].state == reply.state
            && s'.dbs[q.key].blocks == map[] && s'.dbs[q.key].changes == []
            && s'.dbs[q.key].holder == q.instance && s'.dbs[q.key].expiresAt == q.now + q.ttl
  {
    DeleteExactly(s, d);
  }

  /** A change request fails exactly for a database that is not live or a version that it has not reached. For the current
      version nothing has changed. */
  lemma ChangesExactly(s: StoreState, k: Key, from: u64)
    ensures var (s', reply) := Step(s, Changes(k, from));
            && s' == s
            && (if !Live(s, k) then reply == Failed(NotFound)
                else
                  var version := s.dbs[k].state.version;
                  if from > version then reply == Failed(VersionAhead(from, version))
                  else && reply.Changed? && reply.changes.from == from && reply.changes.to == version
                       && (from == version ==> reply.changes.complete && reply.changes.blocks == []))
  {
    if k in s.dbs { assert s.dbs[k := s.dbs[k]] == s.dbs; }
  }

  /** A fetch succeeds exactly for the current version of a live database and a range inside the file. */
  lemma FetchExactly(s: StoreState, k: Key, version: u64, first: u64, count: u64)
    ensures var (s', reply) := Step(s, Fetch(k, version, first, count));
            && s' == s
            && (reply.Pages? <==>
                  Live(s, k) && s.dbs[k].state.version == version && first + count <= s.dbs[k].state.pageCount)
            && (!reply.Pages? ==> reply.Failed?)
            && (Live(s, k) && s.dbs[k].state.version != version ==>
                  reply == Failed(VersionConflict(s.dbs[k].state.version)))
            && (Live(s, k) && s.dbs[k].state.version == version && first + count > s.dbs[k].state.pageCount ==>
                  reply == Failed(RangeBeyond(first, (first + count) % (MAX64 + 1), s.dbs[k].state.pageCount)))
            && (!Live(s, k) ==> reply == Failed(NotFound))
            && (reply.Pages? ==> |reply.blocks| == count)
  {
    if k in s.dbs { assert s.dbs[k := s.dbs[k]] == s.dbs; }
  }
}
