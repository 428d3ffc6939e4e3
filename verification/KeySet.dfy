/** The JWKS cache of internal/token/keys.go. What the token service answers to a fetch is an input. */
module KeySet {
  import opened Basics
  import opened CacheControl

  const REFETCH_INTERVAL: int := 60 * SECOND
  const MAX_STALE: int := 3600 * SECOND

  datatype PublicKey = PublicKey(key: Bytes, alg: string)
  type Keys = map<string, PublicKey>

  /** A JWKS with its Cache-Control header; a failed fetch has none. */
  datatype Jwks = Jwks(keys: Keys, header: string)
  type Fetched = Option<Jwks>

  datatype Result = Found(key: PublicKey) | Unavailable | UnknownKey

  // ---- the machine ----

  /** `freshUntil` and `fetchedAt` are 0, Go's zero time, before the first fetch. */
  datatype Cache = Cache(keys: Keys, freshUntil: int, fetchedAt: int)

  const NO_KEYS := Cache(map[], 0, 0)

  /** One call of find, with what the service would answer to a fetch now. */
  datatype Call = Call(now: int, kid: string, answer: Fetched)

  function Refreshed(c: Cache, now: int, answer: Fetched): Cache {
    if answer.None? then c.(fetchedAt := now) else Cache(answer.value.keys, now + AgeOf(answer.value.header), now)
  }

  predicate Expired(c: Cache, now: int) {
    now >= c.freshUntil && now - c.fetchedAt >= MIN_CACHE_AGE
  }

  predicate Missing(c: Cache, now: int, kid: string) {
    now < c.freshUntil + MAX_STALE && kid !in c.keys && now - c.fetchedAt >= REFETCH_INTERVAL
  }

  /** Whether the call fetches: because the JWKS has expired, or because the key is unknown. */
  predicate Fetches(c: Cache, q: Call) {
    Expired(c, q.now) || Missing(c, q.now, q.kid)
  }

  function After(c: Cache, q: Call): Cache {
    if Fetches(c, q) then Refreshed(c, q.now, q.answer) else c
  }

  /** The key counts if it is in the cache and the cache is not too stale, after the fetch if there is one. */
  function Outcome(c: Cache, q: Call): Result {
    var c' := After(c, q);
    if q.now >= c'.freshUntil + MAX_STALE then Unavailable
    else if q.kid in c'.keys then Found(c'.keys[q.kid])
    else UnknownKey
  }

  // ---- the object ----

  class Set {
    /** The keys come from a file and never change. */
    const fromFile: bool
    var keys: Keys
    var freshUntil: int
    var fetchedAt: int

    constructor FromFile(keys: Keys)
      ensures fromFile && this.keys == keys
    {
      fromFile, this.keys, freshUntil, fetchedAt := true, keys, 0, 0;
    }

    constructor FromURL()
      ensures !fromFile && Value() == NO_KEYS
    {
      fromFile, keys, freshUntil, fetchedAt := false, map[], 0, 0;
    }

    ghost function Value(): Cache
      reads this
    {
      Cache(keys, freshUntil, fetchedAt)
    }

    method Refresh(now: int, answer: Fetched)
      modifies this
      ensures Value() == Refreshed(old(Value()), now, answer)
    {
      fetchedAt := now;
      if answer.None? { return; }
      keys := answer.value.keys;
      var age := CacheAge(answer.value.header);
      freshUntil := now + age;
    }

    /** `first` and `second` are the answers at the two places where find may fetch; `asked` counts the fetches. */
    method FindKey(now: int, kid: string, first: Fetched, second: Fetched) returns (r: Result, asked: nat)
      modifies this
      ensures fromFile ==> Value() == old(Value()) && asked == 0 &&
                           r == if kid in keys then Found(keys[kid]) else UnknownKey
      ensures !fromFile ==> var answer := if Expired(old(Value()), now) then first else second;
                            && Value() == After(old(Value()), Call(now, kid, answer))
                            && r == Outcome(old(Value()), Call(now, kid, answer))
                            && asked == if Fetches(old(Value()), Call(now, kid, answer)) then 1 else 0
    {
      asked := 0;
      if fromFile {
        return if kid in keys then Found(keys[kid]) else UnknownKey, 0;
      }
      if !(now < freshUntil) && now - fetchedAt >= MIN_CACHE_AGE {
        Refresh(now, first);
        asked := asked + 1;
      }
      if !(now < freshUntil + MAX_STALE) { return Unavailable, asked; }
      if kid in keys { return Found(keys[kid]), asked; }
      if now - fetchedAt >= REFETCH_INTERVAL {
        Refresh(now, second);
        asked := asked + 1;
        AgeClampedOf(second);
        if kid in keys { return Found(keys[kid]), asked; }
      }
      return UnknownKey, asked;
    }
  }

  lemma AgeClampedOf(answer: Fetched)
    ensures answer.Some? ==> MIN_CACHE_AGE <= AgeOf(answer.value.header) <= MAX_CACHE_AGE
  {
    if answer.Some? { AgeClamped(Split(answer.value.header)); }
  }

  // ---- whole runs ----

  datatype Run = Run(caches: seq<Cache>, calls: seq<Call>)

  /** A run from the start, on a clock that does not go back. */
  ghost predicate IsRun(run: Run) {
    && |run.caches| == |run.calls| + 1 && run.caches[0] == NO_KEYS
    && (forall i, j :: 0 <= i < j < |run.calls| ==> run.calls[i].now <= run.calls[j].now)
    && forall i :: 0 <= i < |run.calls| ==> run.caches[i + 1] == After(run.caches[i], run.calls[i])
  }

  predicate FetchesAt(run: Run, i: nat)
    requires i < |run.calls| && |run.caches| == |run.calls| + 1
  {
    Fetches(run.caches[i], run.calls[i])
  }

  predicate SucceedsAt(run: Run, i: nat)
    requires i < |run.calls| && |run.caches| == |run.calls| + 1
  {
    FetchesAt(run, i) && run.calls[i].answer.Some?
  }

  lemma {:induction false} AttemptRemembered(run: Run, i: nat, j: nat)
    requires IsRun(run) && i < j <= |run.calls| && FetchesAt(run, i)
    ensures run.caches[j].fetchedAt >= run.calls[i].now
    decreases j
  {
    if i < j - 1 { AttemptRemembered(run, i, j - 1); }
  }

  /** Fetches are at least ten seconds apart; one for an unknown key, with a JWKS that has not expired, comes at least
      a minute after the fetch before it. */
  lemma FetchesSpaced(run: Run, i: nat, j: nat)
    requires IsRun(run) && i < j < |run.calls| && FetchesAt(run, i) && FetchesAt(run, j)
    ensures run.calls[j].now - run.calls[i].now >= 10 * SECOND
    ensures !Expired(run.caches[j], run.calls[j].now) ==> run.calls[j].now - run.calls[i].now >= 60 * SECOND
  {
    AttemptRemembered(run, i, j);
  }

  /** The cache holds the JWKS of call `i`, the last successful fetch before state `j`. */
  ghost predicate Holds(run: Run, i: nat, j: nat)
    requires i < j <= |run.calls| && |run.caches| == |run.calls| + 1
  {
    && SucceedsAt(run, i) && run.caches[j].keys == run.calls[i].answer.value.keys
    && run.caches[j].freshUntil == run.calls[i].now + AgeOf(run.calls[i].answer.value.header)
    && forall m :: i < m < j ==> !SucceedsAt(run, m)
  }

  lemma HoldsNext(run: Run, i: nat, j: nat)
    requires IsRun(run) && i < j < |run.calls| && Holds(run, i, j) && !SucceedsAt(run, j)
    ensures Holds(run, i, j + 1)
  {
    KeysStay(run.caches[j], run.calls[j]);
    assert run.caches[j + 1] == After(run.caches[j], run.calls[j]);
  }

  lemma KeysStay(c: Cache, q: Call)
    requires !(Fetches(c, q) && q.answer.Some?)
    ensures After(c, q).keys == c.keys && After(c, q).freshUntil == c.freshUntil
  {
  }

  lemma {:induction false} CacheSource(run: Run, j: nat) returns (i: nat)
    requires IsRun(run) && j <= |run.calls| && run.caches[j].keys != map[]
    ensures i < j && Holds(run, i, j)
  {
    if SucceedsAt(run, j - 1) {
      i := j - 1;
    } else {
      i := CacheSource(run, j - 1);
      HoldsNext(run, i, j - 1);
    }
  }

  /** A key that find returns is in the JWKS of the last successful fetch, which is less than 65 minutes old. */
  lemma ReturnedKeyIsRecent(run: Run, j: nat) returns (i: nat)
    requires IsRun(run) && j < |run.calls| && Outcome(run.caches[j], run.calls[j]).Found?
    ensures i <= j && Holds(run, i, j + 1)
    ensures var keys := run.calls[i].answer.value.keys;
            run.calls[j].kid in keys && Outcome(run.caches[j], run.calls[j]).key == keys[run.calls[j].kid]
    ensures run.calls[j].now - run.calls[i].now < 65 * 60 * SECOND
  {
    assert run.calls[j].kid in run.caches[j + 1].keys;
    i := CacheSource(run, j + 1);
    AgeClampedOf(run.calls[i].answer);
  }

  /** A key that the service lists is found, however old the cache is: ten seconds after the last attempt if the cache has
      expired, a minute after it if the cache does not have the key. */
  lemma ListedKeyIsFound(c: Cache, q: Call)
    requires q.answer.Some? && q.kid in q.answer.value.keys
    requires || (q.now >= c.freshUntil && q.now - c.fetchedAt >= 10 * SECOND)
             || (q.kid !in c.keys && q.now - c.fetchedAt >= 60 * SECOND)
    ensures Outcome(c, q) == Found(q.answer.value.keys[q.kid])
  {
    AgeClampedOf(q.answer);
  }

  /** A key of a cache that has not expired is found without a fetch. */
  lemma FreshNeedsNoFetch(c: Cache, q: Call)
    requires q.now < c.freshUntil && q.kid in c.keys
    ensures !Fetches(c, q) && After(c, q) == c && Outcome(c, q) == Found(c.keys[q.kid])
  {
  }

  /** No call after call `i`, up to call `j`, gets a JWKS. */
  ghost predicate Outage(run: Run, i: nat, j: nat)
    requires i <= j < |run.calls| && |run.caches| == |run.calls| + 1
  {
    forall m :: i < m <= j ==> run.calls[m].answer.None? || !FetchesAt(run, m)
  }

  lemma {:induction false} OutageKeeps(run: Run, i: nat, j: nat)
    requires IsRun(run) && i <= j < |run.calls| && SucceedsAt(run, i) && Outage(run, i, j)
    ensures run.caches[j + 1].keys == run.calls[i].answer.value.keys
    ensures run.caches[j + 1].freshUntil == run.calls[i].now + AgeOf(run.calls[i].answer.value.header)
    decreases j
  {
    if i < j { OutageKeeps(run, i, j - 1); }
  }

  /** While the service is down, the keys of the last successful fetch stay in use for an hour after they expired, and no
      longer: a call finds a key exactly if it is one of them. */
  lemma KeysOutliveOutage(run: Run, i: nat, j: nat)
    requires IsRun(run) && i <= j < |run.calls| && SucceedsAt(run, i) && Outage(run, i, j)
    ensures var q, jwks := run.calls[j], run.calls[i].answer.value;
            Outcome(run.caches[j], q)
            == if q.now >= run.calls[i].now + AgeOf(jwks.header) + 3600 * SECOND then Unavailable
               else if q.kid in jwks.keys then Found(jwks.keys[q.kid])
               else UnknownKey
  {
    OutageKeeps(run, i, j);
  }
}
