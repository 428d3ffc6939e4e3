/** Slot claims: what a claim that replaces a key removes, and what stays locked out afterwards. */
module Claims {
  import opened Basics
  import opened Store
  import opened Memory
  import opened Runs

  /** The claim takes the owner's slot from another key. */
  predicate Replaces(s: StoreState, q: ClaimRequest) {
    q.owner in s.slots && s.slots[q.owner].subject != q.subject
  }

  /** Exactly the replaced key's databases go, without a record. The reply lists its live ones once each, sorted. */
  lemma ClaimPurges(s: StoreState, q: ClaimRequest, k: Key)
    requires Replaces(s, q)
    ensures var (s', reply) := Step(s, ClaimSlot(q));
            var subject := s.slots[q.owner].subject;
            && Lookup(s'.dbs, k) == (if k.subject == subject then None else Lookup(s.dbs, k))
            && reply.Claimed? && reply.replaced == Some(s.slots[q.owner]) && reply.slot == Slot(q.subject, "", q.now)
            && (k in reply.purged <==> k in s.dbs && k.subject == subject && !s.dbs[k].deleted)
            && Distinct(reply.purged)
            && (forall i, j :: 0 <= i < j < |reply.purged| ==> Before(reply.purged[i].dbid, reply.purged[j].dbid))
            && (forall o :: o != q.owner ==> Lookup(s'.slots, o) == Lookup(s.slots, o))
  {}

  /** The first claim of a slot takes it and purges nothing, and a claim of the holder changes nothing. */
  lemma ClaimElse(s: StoreState, q: ClaimRequest)
    requires !Replaces(s, q)
    ensures Step(s, ClaimSlot(q))
            == if q.owner in s.slots then (s, Claimed(s.slots[q.owner], None, []))
               else var slot := Slot(q.subject, "", q.now);
                    (StoreState(s.dbs, s.slots[q.owner := slot]), Claimed(slot, None, []))
  {}

  /** Only the key that holds a slot sets its label, and that changes nothing else. */
  lemma LabelExactly(s: StoreState, owner: string, subject: string, text: string)
    ensures var (s', reply) := Step(s, SetSlotLabel(owner, subject, text));
            if owner in s.slots && s.slots[owner].subject == subject then
              var slot := Slot(subject, text, s.slots[owner].claimedAt);
              && reply == Claimed(slot, None, []) && s' == StoreState(s.dbs, s.slots[owner := slot])
              && Step(s', GetSlot(owner)) == (s', SlotIs(Some(slot)))
            else s' == s && reply == Failed(if owner in s.slots then SlotTaken else NotFound)
  {}

  /** Nobody deletes a slot that another key holds. Otherwise the slot and all records of the key are gone, and no other
      slot or record; the live ones are reported once each, in order. */
  lemma SlotDeleted(s: StoreState, owner: string, subject: string, k: Key)
    ensures var (s', reply) := Step(s, DeleteSlot(owner, subject));
            if owner in s.slots && s.slots[owner].subject != subject then s' == s && reply == Failed(SlotTaken)
            else
              && s'.slots == s.slots - {owner} && Step(s', GetSlot(owner)).1 == SlotIs(None)
              && Lookup(s'.dbs, k) == (if k.subject == subject then None else Lookup(s.dbs, k))
              && reply.Keys? && Distinct(reply.keys)
              && (k in reply.keys <==> k in s.dbs && k.subject == subject && !s.dbs[k].deleted)
              && (forall i, j :: 0 <= i < j < |reply.keys| ==> Before(reply.keys[i].dbid, reply.keys[j].dbid))
  {}

  /** A record disappears only by a claim that replaces its key, a slot deletion for its key, or the sweep of an unused
      database whose key holds a slot. */
  lemma PurgedOnlyBy(s: StoreState, e: Event, k: Key)
    requires Legal(s, e) && k in s.dbs && k !in Step(s, e).0.dbs
    ensures || (e.ClaimSlot? && Replaces(s, e.claim) && s.slots[e.claim.owner].subject == k.subject)
            || (e.DeleteSlot? && e.slotSubject == k.subject)
            || (e.DeleteUnused? && Unused(s, e.cutoff, k) && k in e.chosen && HoldsSlot(s.slots, k.subject))
  {
    if e.DeleteUnused? {
      var n :| 0 <= n < |e.chosen| && e.chosen[n] == k;
    }
  }

  predicate Creates(e: Event, k: Key) {
    e.Open? && e.open.key == k && e.open.create
  }

  /** On a missing database nothing succeeds except an open that creates it, and a deletion, which deletes nothing. */
  lemma MissingStep(s: StoreState, e: Event, k: Key, s': StoreState, r: Reply)
    requires Legal(s, e) && Step(s, e) == (s', r) && k !in s.dbs && !(Creates(e, k) && r.Opened?)
    ensures k !in s'.dbs
    ensures OnDatabase(e) && KeyOf(e) == k ==> s' == s && (if e.Delete? then r == Deleted(0, false) else r.Failed?)
    ensures OnDatabase(e) && KeyOf(e) == k && !e.Open? && !e.Delete? ==> r == Failed(NotFound)
  {}

  /** No open creates `k` from call `i` up to call `j`. */
  ghost predicate NotCreated(run: Run, k: Key, i: nat, j: nat)
    requires IsRun(run) && i <= j <= |run.events|
  {
    forall m :: i <= m < j ==> !(Creates(run.events[m], k) && run.replies[m].Opened?)
  }

  lemma {:induction false} StaysMissing(run: Run, k: Key, i: nat, j: nat)
    requires IsRun(run) && i <= j <= |run.events| && k !in run.states[i].dbs && NotCreated(run, k, i, j)
    ensures k !in run.states[j].dbs
    decreases j
  {
    if i < j {
      StaysMissing(run, k, i, j - 1);
      StepAt(run, j - 1);
      MissingStep(run.states[j - 1], run.events[j - 1], k, run.states[j], run.replies[j - 1]);
    }
  }

  /** The owner's slot, claimed at time `at`, cannot have been passed on, deleted or released by call `e`. */
  predicate LeavesSlot(e: Event, owner: string, at: int) {
    match e
    case ClaimSlot(q) => q.owner != owner
    case DeleteSlot(o, _) => o != owner
    case DeleteUnused(cutoff, _, _) => cutoff <= at
    case _ => true
  }

  lemma SlotStep(s: StoreState, e: Event, owner: string, subject: string, at: int)
    requires owner in s.slots && s.slots[owner].subject == subject && s.slots[owner].claimedAt == at
    requires LeavesSlot(e, owner, at)
    ensures var s' := Step(s, e).0;
            owner in s'.slots && s'.slots[owner].subject == subject && s'.slots[owner].claimedAt == at
  {}

  lemma {:induction false} SlotStays(run: Run, owner: string, subject: string, at: int, i: nat, j: nat)
    requires IsRun(run) && i <= j <= |run.events|
    requires var slot := Lookup(run.states[i].slots, owner);
             slot.Some? && slot.value.subject == subject && slot.value.claimedAt == at
    requires forall m :: i <= m < j ==> LeavesSlot(run.events[m], owner, at)
    ensures var slot := Lookup(run.states[j].slots, owner);
            slot.Some? && slot.value.subject == subject && slot.value.claimedAt == at
    decreases j
  {
    if i < j {
      SlotStays(run, owner, subject, at, i, j - 1);
      StepAt(run, j - 1);
      SlotStep(run.states[j - 1], run.events[j - 1], owner, subject, at);
    }
  }

  /** Call `i` replaces the key `old` with another one, and until call `j` the owner's slot is not touched again. */
  ghost predicate ReplacedUntil(run: Run, i: nat, q: ClaimRequest, subject: string, j: nat)
    requires IsRun(run)
  {
    && i < j < |run.events| && run.events[i] == ClaimSlot(q)
    && Replaces(run.states[i], q) && run.states[i].slots[q.owner].subject == subject
    && forall m :: i < m < j ==> LeavesSlot(run.events[m], q.owner, q.now)
  }

  lemma ClaimedSlot(s: StoreState, q: ClaimRequest)
    requires Replaces(s, q)
    ensures Lookup(Step(s, ClaimSlot(q)).0.slots, q.owner) == Some(Slot(q.subject, "", q.now))
    ensures forall k :: k in Step(s, ClaimSlot(q)).0.dbs ==> k.subject != s.slots[q.owner].subject
  {}

  lemma ClaimedAt(run: Run, i: nat, q: ClaimRequest)
    requires IsRun(run) && i < |run.events| && run.events[i] == ClaimSlot(q) && Replaces(run.states[i], q)
    ensures Lookup(run.states[i + 1].slots, q.owner) == Some(Slot(q.subject, "", q.now))
    ensures forall k :: k in run.states[i + 1].dbs ==> k.subject != run.states[i].slots[q.owner].subject
  {
    StepAt(run, i);
    ClaimedSlot(run.states[i], q);
  }

  lemma SlotAfterClaim(run: Run, i: nat, q: ClaimRequest, subject: string, j: nat)
    requires IsRun(run) && ReplacedUntil(run, i, q, subject, j)
    ensures forall k :: k in run.states[i + 1].dbs ==> k.subject != subject
    ensures q.owner in run.states[j].slots && run.states[j].slots[q.owner].subject == q.subject != subject
  {
    ClaimedAt(run, i, q);
    SlotStays(run, q.owner, q.subject, q.now, i + 1, j);
  }

  /** After a claim, no open as that owner with the replaced key succeeds, not even a resume. */
  lemma ReplacedKeyIsLockedOut(run: Run, i: nat, q: ClaimRequest, subject: string, j: nat)
    requires IsRun(run) && ReplacedUntil(run, i, q, subject, j)
    requires run.events[j].Open? && run.events[j].open.key.subject == subject
    requires run.events[j].open.owner == q.owner != ""
    ensures run.replies[j] == Failed(SlotTaken) && run.states[j + 1] == run.states[j]
  {
    SlotAfterClaim(run, i, q, subject, j);
    StepAt(run, j);
  }

  /** After a claim, no call of anyone on a database of the replaced key succeeds, until an open creates it again,
      whatever becomes of the slot. */
  lemma PurgedUntilCreated(run: Run, i: nat, q: ClaimRequest, j: nat)
    requires IsRun(run) && i < j < |run.events| && run.events[i] == ClaimSlot(q) && Replaces(run.states[i], q)
    requires OnDatabase(run.events[j]) && KeyOf(run.events[j]).subject == run.states[i].slots[q.owner].subject
    requires NotCreated(run, KeyOf(run.events[j]), i + 1, j + 1)
    ensures run.states[j + 1] == run.states[j]
    ensures if run.events[j].Delete? then run.replies[j] == Deleted(0, false) else run.replies[j].Failed?
  {
    var k := KeyOf(run.events[j]);
    ClaimedAt(run, i, q);
    StaysMissing(run, k, i + 1, j);
    StepAt(run, j);
    MissingStep(run.states[j], run.events[j], k, run.states[j + 1], run.replies[j]);
  }
}
