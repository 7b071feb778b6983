// The broker's cache of Cloudflare Access signing keys.  Unlike the dashboard's
// it serves stale keys while fetches fail, and refuses only when it has none.
// Calls are serialized by the cache's lock; each fetch may fail.
module AccessKeys {
  import opened Optional

  // Times are in nanoseconds.
  const SECOND := 1_000_000_000
  const KEYS_TTL := 300 * SECOND
  const NEGATIVE_CACHE_TTL := 30 * SECOND

  // A key set, by identity.
  type KeySet = nat

  datatype Cache = Cache(keys: Option<KeySet>, keysExp: int, nextRetry: Option<int>)

  const EMPTY := Cache(None, 0, None)

  // looked: the clock on entry; locked: the clock once the lock is held;
  // fetched: what a fetch would yield.
  datatype Request = Request(looked: int, locked: int, fetched: Option<KeySet>)

  predicate Current(c: Cache, now: int) { c.keys.Some? && now < c.keysExp }

  predicate Waiting(c: Cache, now: int) { c.keys.Some? && c.nextRetry.Some? && now < c.nextRetry.value }

  predicate Fetches(c: Cache, r: Request) {
    !Current(c, r.looked) && !Current(c, r.locked) && !Waiting(c, r.locked)
  }

  function Refresh(c: Cache, r: Request): Cache {
    match r.fetched
    case Some(k) => Cache(Some(k), r.locked + KEYS_TTL, None)
    case None =>
      if c.keys.None? then c
      else c.(keysExp := r.locked + NEGATIVE_CACHE_TTL, nextRetry := Some(r.locked + NEGATIVE_CACHE_TTL))
  }

  // The cache after a call; the call returns its keys, None being an error.
  function Call(c: Cache, r: Request): Cache {
    if Fetches(c, r) then Refresh(c, r)
    else if Current(c, r.looked) || Current(c, r.locked) then c
    else c.(keysExp := r.locked + NEGATIVE_CACHE_TTL)
  }

  class CfAccessVerifier {
    var keys: Option<KeySet>
    var keysExp: int
    var nextRetry: Option<int>

    function State(): Cache reads this { Cache(keys, keysExp, nextRetry) }

    constructor ()
      ensures State() == EMPTY
    {
      keys, keysExp, nextRetry := None, 0, None;
    }

    method GetKeySet(r: Request) returns (served: Option<KeySet>)
      modifies this
      ensures State() == Call(old(State()), r)
      ensures served == State().keys
    {
      if keys.Some? && r.looked < keysExp { return keys; }
      if keys.Some? && r.locked < keysExp { return keys; }
      if keys.Some? && nextRetry.Some? && r.locked < nextRetry.value {
        keysExp := r.locked + NEGATIVE_CACHE_TTL;
        return keys;
      }
      if r.fetched.None? {
        if keys.None? { return None; }
        nextRetry := Some(r.locked + NEGATIVE_CACHE_TTL);
        keysExp := r.locked + NEGATIVE_CACHE_TTL;
        return keys;
      }
      keys, keysExp, nextRetry := r.fetched, r.locked + KEYS_TTL, None;
      return keys;
    }
  }

  // ---- Runs --------------------------------------------------------------

  // The cache before request n.
  function At(reqs: seq<Request>, n: nat): Cache
    requires n <= |reqs|
  {
    if n == 0 then EMPTY else Call(At(reqs, n - 1), reqs[n - 1])
  }

  predicate DidFetch(reqs: seq<Request>, n: nat)
    requires n < |reqs|
  {
    Fetches(At(reqs, n), reqs[n])
  }

  ghost predicate Serialized(reqs: seq<Request>) {
    && (forall i :: 0 <= i < |reqs| ==> reqs[i].looked <= reqs[i].locked)
    && (forall i, j :: 0 <= i < j < |reqs| ==> reqs[i].locked <= reqs[j].looked)
  }

  // What the latest successful fetch among the first n requests yielded.
  function LatestFetched(reqs: seq<Request>, n: nat): Option<KeySet>
    requires n <= |reqs|
  {
    if n == 0 then None
    else if DidFetch(reqs, n - 1) && reqs[n - 1].fetched.Some? then reqs[n - 1].fetched
    else LatestFetched(reqs, n - 1)
  }

  // A call returns the latest successfully fetched set, however old, and fails
  // exactly when there has never been one.
  lemma {:induction false} ServesLatestFetched(reqs: seq<Request>, n: nat)
    requires n <= |reqs|
    ensures At(reqs, n).keys == LatestFetched(reqs, n)
  {
    if n > 0 {
      ServesLatestFetched(reqs, n - 1);
    }
  }

  // The retry time never decides anything: it is at most the expiry, so a call
  // that gets past the expiry test is past it too.
  lemma RetryTimeNeverDecides(reqs: seq<Request>, n: nat)
    requires n < |reqs|
    ensures DidFetch(reqs, n) <==> !Current(At(reqs, n), reqs[n].looked) && !Current(At(reqs, n), reqs[n].locked)
    ensures Waiting(At(reqs, n), reqs[n].locked) ==> Current(At(reqs, n), reqs[n].locked)
  {
    RetryBeforeExpiry(reqs, n);
  }

  lemma {:induction false} RetryBeforeExpiry(reqs: seq<Request>, n: nat)
    requires n <= |reqs|
    ensures At(reqs, n).nextRetry.Some? ==> At(reqs, n).nextRetry.value <= At(reqs, n).keysExp
  {
    if n > 0 {
      RetryBeforeExpiry(reqs, n - 1);
    }
  }

  // With keys in hand, the next fetch comes no sooner than five minutes after a
  // successful one and thirty seconds after a failed one.
  lemma FetchesAreSpaced(reqs: seq<Request>, i: nat, j: nat)
    requires Serialized(reqs) && i < j < |reqs| && DidFetch(reqs, i) && DidFetch(reqs, j)
    requires At(reqs, i + 1).keys.Some? && forall k :: i < k < j ==> !DidFetch(reqs, k)
    ensures reqs[j].locked - reqs[i].locked >= if reqs[i].fetched.Some? then KEYS_TTL else NEGATIVE_CACHE_TTL
  {
    QuietUntil(reqs, i, j);
  }

  // And it comes with the first call whose clock, on entry and under the lock, has
  // reached that time.
  lemma NextFetchExactly(reqs: seq<Request>, i: nat, j: nat)
    requires i < j < |reqs| && DidFetch(reqs, i)
    requires At(reqs, i + 1).keys.Some? && forall k :: i < k < j ==> !DidFetch(reqs, k)
    ensures var due := reqs[i].locked + if reqs[i].fetched.Some? then 300 * SECOND else 30 * SECOND;
            DidFetch(reqs, j) <==> reqs[j].looked >= due && reqs[j].locked >= due
  {
    QuietUntil(reqs, i, j);
    RetryTimeNeverDecides(reqs, j);
  }

  lemma {:induction false} QuietUntil(reqs: seq<Request>, i: nat, j: nat)
    requires i < j <= |reqs| && DidFetch(reqs, i)
    requires At(reqs, i + 1).keys.Some? && forall k :: i < k < j ==> !DidFetch(reqs, k)
    ensures At(reqs, j) == At(reqs, i + 1)
    ensures At(reqs, j).keysExp == reqs[i].locked + if reqs[i].fetched.Some? then KEYS_TTL else NEGATIVE_CACHE_TTL
  {
    if j > i + 1 {
      QuietUntil(reqs, i, j - 1);
      RetryTimeNeverDecides(reqs, j - 1);
    }
  }

  // Before the first success every call fetches ...
  lemma EmptyCacheAlwaysFetches(reqs: seq<Request>, n: nat)
    requires n < |reqs| && LatestFetched(reqs, n).None?
    ensures DidFetch(reqs, n)
  {
    ServesLatestFetched(reqs, n);
  }

  // ... and after it a set is served for as long as fetches fail: no age is too old.
  lemma StaleKeysAreServedForever(key: KeySet, age: int)
    requires age >= KEYS_TTL
    ensures var reqs := [Request(0, 0, Some(key)), Request(age, age, None)];
            Serialized(reqs) && DidFetch(reqs, 1) && At(reqs, 2).keys == Some(key)
  {
    var reqs := [Request(0, 0, Some(key)), Request(age, age, None)];
    assert At(reqs, 1) == Cache(Some(key), KEYS_TTL, None);
  }
}
