// The dashboard's cache of OIDC signing keys: a lifetime, a throttle on
// refreshes for unknown key IDs, and one fetch per refresh.  Calls are
// serialized; each fetch may fail.
module JwksCache {
  import opened Optional

  type RsaKey = nat

  // One JWK after parsing: not an RS256 signing key, malformed, or usable.
  datatype Jwk = Skipped | Malformed | Usable(keyId: string, key: RsaKey)

  // Times are in nanoseconds.
  const SECOND := 1_000_000_000
  const MIN_KEY_REFRESH := 30 * SECOND

  datatype Cache = Cache(ttl: int, keys: Option<map<string, RsaKey>>, expiresAt: int, lastMiss: Option<int>)

  // The clock readings of one call: on entry, when a fetch is stored, and when
  // a miss is recorded.
  datatype Times = Times(now: int, stored: int, missed: int)

  datatype Reply = Found(key: RsaKey) | NotFound | FetchError

  predicate Knows(c: Cache, keyId: string) { c.keys.Some? && keyId in c.keys.value }

  predicate CacheExpired(c: Cache, now: int) { c.keys.None? || now >= c.expiresAt }

  predicate KeyUnknown(c: Cache, keyId: string) { c.keys.Some? && keyId !in c.keys.value }

  predicate RecentMiss(c: Cache, now: int) { c.lastMiss.Some? && now < c.lastMiss.value + MIN_KEY_REFRESH }

  predicate MissSinceExpiry(c: Cache) { c.lastMiss.Some? && c.lastMiss.value >= c.expiresAt }

  predicate Throttled(c: Cache, keyId: string, now: int) {
    KeyUnknown(c, keyId) && RecentMiss(c, now) && (!CacheExpired(c, now) || MissSinceExpiry(c))
  }

  predicate Served(c: Cache, keyId: string, now: int) { Knows(c, keyId) && now < c.expiresAt }

  // Does this call go to the network?
  predicate Fetches(c: Cache, keyId: string, now: int) { !Served(c, keyId, now) && !Throttled(c, keyId, now) }

  // The usable keys of a fetched set; None when it is rejected.
  function Collect(jwks: seq<Jwk>): Option<map<string, RsaKey>> {
    if jwks == [] then Some(map[])
    else
      match (Collect(jwks[..|jwks| - 1]), jwks[|jwks| - 1])
      case (None, _) => None
      case (Some(m), Skipped) => Some(m)
      case (Some(_), Malformed) => None
      case (Some(m), Usable(id, key)) => if id in m then None else Some(m[id := key])
  }

  function Accepted(response: Option<seq<Jwk>>): Option<map<string, RsaKey>> {
    if response.None? then None
    else
      var m := Collect(response.value);
      if m.Some? && |m.value| > 0 then m else None
  }

  function Store(c: Cache, keys: Option<map<string, RsaKey>>, stored: int): Cache {
    if keys.None? then c else c.(keys := keys, expiresAt := stored + c.ttl)
  }

  function Lookup(c: Cache, keyId: string): Reply {
    if Knows(c, keyId) then Found(c.keys.value[keyId]) else NotFound
  }

  // The cache after a call, and its reply; fetched is what a fetch would yield.
  function Call(c: Cache, keyId: string, t: Times, fetched: Option<map<string, RsaKey>>): (Cache, Reply) {
    if Served(c, keyId, t.now) then (c, Lookup(c, keyId))
    else if Throttled(c, keyId, t.now) then (c, NotFound)
    else
      var expired := CacheExpired(c, t.now);
      var before := if expired then c else c.(lastMiss := Some(t.now));
      var after := Store(before, fetched, t.stored);
      if fetched.None? then
        (if expired && KeyUnknown(c, keyId) then after.(lastMiss := Some(t.missed)) else after, FetchError)
      else if expired && !Knows(after, keyId) then (after.(lastMiss := Some(t.missed)), NotFound)
      else (after, Lookup(after, keyId))
  }

  class DashboardJwksCache {
    const ttl: int
    var keys: Option<map<string, RsaKey>>
    var expiresAt: int
    var lastMiss: Option<int>

    function State(): Cache reads this { Cache(ttl, keys, expiresAt, lastMiss) }

    constructor (ttl: int)
      ensures State() == Cache(ttl, None, 0, None)
    {
      this.ttl := ttl;
      keys, expiresAt, lastMiss := None, 0, None;
    }

    method FetchAndStore(response: Option<seq<Jwk>>, stored: int) returns (ok: bool)
      modifies this
      ensures ok <==> Accepted(response).Some?
      ensures State() == Store(old(State()), Accepted(response), stored)
    {
      if response.None? { return false; }
      var jwks := response.value;
      var found: map<string, RsaKey> := map[];
      var i := 0;
      assert jwks[..0] == [];
      while i < |jwks|
        invariant 0 <= i <= |jwks| && Collect(jwks[..i]) == Some(found)
        invariant State() == old(State())
      {
        assert jwks[..i + 1][..i] == jwks[..i];
        match jwks[i] {
          case Skipped =>
          case Malformed => CollectFails(jwks, i + 1); return false;
          case Usable(id, key) =>
            if id in found { CollectFails(jwks, i + 1); return false; }
            found := found[id := key];
        }
        i := i + 1;
      }
      assert jwks[..i] == jwks;
      if |found| == 0 { return false; }
      keys, expiresAt := Some(found), stored + ttl;
      return true;
    }

    method Key(keyId: string, t: Times, response: Option<seq<Jwk>>) returns (r: Reply)
      modifies this
      ensures (State(), r) == Call(old(State()), keyId, t, Accepted(response))
    {
      hide Accepted;
      if keys.Some? && keyId in keys.value && t.now < expiresAt { return Found(keys.value[keyId]); }
      var cacheExpired := keys.None? || !(t.now < expiresAt);
      var keyUnknown := keys.Some? && keyId !in keys.value;
      var recentMiss := lastMiss.Some? && t.now < lastMiss.value + MIN_KEY_REFRESH;
      var missSinceExpiry := lastMiss.Some? && !(lastMiss.value < expiresAt);
      if keyUnknown && recentMiss && (!cacheExpired || missSinceExpiry) { return NotFound; }
      if cacheExpired {
        var ok := FetchAndStore(response, t.stored);
        if !ok {
          if keyUnknown { lastMiss := Some(t.missed); }
          return FetchError;
        }
        if keyId in keys.value { return Found(keys.value[keyId]); }
        lastMiss := Some(t.missed);
        return NotFound;
      }
      // An unexpired cache that knows the key was served above.
      lastMiss := Some(t.now);
      var ok := FetchAndStore(response, t.stored);
      if !ok { return FetchError; }
      if keyId !in keys.value { return NotFound; }
      return Found(keys.value[keyId]);
    }
  }

  lemma {:induction false} CollectFails(jwks: seq<Jwk>, n: nat)
    requires n <= |jwks| && Collect(jwks[..n]).None?
    ensures Collect(jwks).None?
    decreases |jwks| - n
  {
    if n == |jwks| {
      assert jwks[..n] == jwks;
    } else {
      assert jwks[..n + 1][..n] == jwks[..n];
      CollectFails(jwks, n + 1);
    }
  }

  // A set is collected exactly when nothing in it is malformed and no usable key
  // ID is repeated, and then maps each usable key ID to its key.
  lemma {:induction false} CollectExactly(jwks: seq<Jwk>)
    ensures Collect(jwks).Some? <==>
            && (forall i :: 0 <= i < |jwks| ==> !jwks[i].Malformed?)
            && (forall i, j :: 0 <= i < j < |jwks| && jwks[i].Usable? && jwks[j].Usable? ==> jwks[i].keyId != jwks[j].keyId)
    ensures Collect(jwks).Some? ==>
              forall id :: id in Collect(jwks).value <==> exists i :: 0 <= i < |jwks| && jwks[i].Usable? && jwks[i].keyId == id
    ensures Collect(jwks).Some? ==>
              forall i :: 0 <= i < |jwks| && jwks[i].Usable? ==>
                jwks[i].keyId in Collect(jwks).value && Collect(jwks).value[jwks[i].keyId] == jwks[i].key
  {
    if jwks != [] {
      var init, last := jwks[..|jwks| - 1], jwks[|jwks| - 1];
      CollectExactly(init);
      assert forall i :: 0 <= i < |init| ==> init[i] == jwks[i];
      if Collect(jwks).Some? {
        forall id ensures id in Collect(jwks).value <==> exists i :: 0 <= i < |jwks| && jwks[i].Usable? && jwks[i].keyId == id {
          assert id in Collect(jwks).value <==> id in Collect(init).value || (last.Usable? && id == last.keyId);
        }
      }
    }
  }

  // A response is accepted exactly when it arrived, is well formed as above and
  // holds a usable key.
  lemma AcceptedExactly(response: Option<seq<Jwk>>)
    ensures Accepted(response).Some? <==>
            && response.Some?
            && (forall i :: 0 <= i < |response.value| ==> !response.value[i].Malformed?)
            && (forall i, j :: 0 <= i < j < |response.value| && response.value[i].Usable? && response.value[j].Usable? ==>
                  response.value[i].keyId != response.value[j].keyId)
            && (exists i :: 0 <= i < |response.value| && response.value[i].Usable?)
    ensures Accepted(response).Some? ==> Accepted(response) == Collect(response.value)
  {
    hide Collect;
    if response.Some? {
      CollectExactly(response.value);
      if Collect(response.value).Some? {
        var m := Collect(response.value).value;
        if i :| 0 <= i < |response.value| && response.value[i].Usable? {
          assert response.value[i].keyId in m;
        } else {
          assert m == map[];
        }
      }
    }
  }

  // ---- Serialized runs ---------------------------------------------------

  datatype Request = Request(keyId: string, t: Times, fetched: Option<map<string, RsaKey>>)

  // The cache before request n.
  function At(c: Cache, reqs: seq<Request>, n: nat): Cache
    requires n <= |reqs|
  {
    if n == 0 then c
    else Call(At(c, reqs, n - 1), reqs[n - 1].keyId, reqs[n - 1].t, reqs[n - 1].fetched).0
  }

  function ReplyTo(c: Cache, reqs: seq<Request>, n: nat): Reply
    requires n < |reqs|
  {
    Call(At(c, reqs, n), reqs[n].keyId, reqs[n].t, reqs[n].fetched).1
  }

  predicate DidFetch(c: Cache, reqs: seq<Request>, n: nat)
    requires n < |reqs|
  {
    Fetches(At(c, reqs, n), reqs[n].keyId, reqs[n].t.now)
  }

  // The request's key ID was unknown to a populated cache, and it fetched.
  predicate UnknownFetch(c: Cache, reqs: seq<Request>, n: nat)
    requires n < |reqs|
  {
    DidFetch(c, reqs, n) && KeyUnknown(At(c, reqs, n), reqs[n].keyId)
  }

  ghost predicate Serialized(reqs: seq<Request>) {
    && (forall i :: 0 <= i < |reqs| ==> reqs[i].t.now <= reqs[i].t.stored <= reqs[i].t.missed)
    && (forall i, j :: 0 <= i < j < |reqs| ==> reqs[i].t.missed <= reqs[j].t.now)
  }

  // ---- When the network is asked, and what is remembered ------------------

  // A call fetches exactly when the cache is empty, or its key is known but the
  // cache expired, or its key is unknown and no miss of the last thirty seconds
  // forbids it; a miss from before the expiry does not.
  lemma FetchesExactly(c: Cache, keyId: string, now: int)
    ensures Fetches(c, keyId, now) <==>
            || c.keys.None?
            || (keyId in c.keys.value && now >= c.expiresAt)
            || (&& keyId !in c.keys.value
                && (|| c.lastMiss.None?
                    || now >= c.lastMiss.value + 30 * 1_000_000_000
                    || (now >= c.expiresAt && c.lastMiss.value < c.expiresAt)))
  {
  }

  // A known key is served while the cache is current, and refreshed, never
  // refused unasked, once it has expired.
  lemma KnownKeysAreNeverThrottled(c: Cache, keyId: string, t: Times, fetched: Option<map<string, RsaKey>>)
    requires c.keys.Some? && keyId in c.keys.value
    ensures t.now < c.expiresAt ==> Call(c, keyId, t, fetched) == (c, Found(c.keys.value[keyId]))
    ensures t.now >= c.expiresAt ==>
              && Fetches(c, keyId, t.now)
              && (fetched.None? ==> Call(c, keyId, t, fetched) == (c, FetchError))
              && (fetched.Some? ==>
                    && Call(c, keyId, t, fetched).0.keys == fetched && Call(c, keyId, t, fetched).0.expiresAt == t.stored + c.ttl
                    && Call(c, keyId, t, fetched).1 ==
                       if keyId in fetched.value then Found(fetched.value[keyId]) else NotFound)
  {
  }

  // What a call for an unknown key, or to an empty cache, replies and leaves behind.
  lemma UnknownKeyCall(c: Cache, keyId: string, t: Times, fetched: Option<map<string, RsaKey>>)
    requires c.keys.Some? ==> keyId !in c.keys.value
    ensures var (after, reply) := Call(c, keyId, t, fetched);
            var expired := c.keys.None? || t.now >= c.expiresAt;
            if !Fetches(c, keyId, t.now) then after == c && reply == NotFound
            else
              && reply == (if fetched.None? then FetchError else if keyId in fetched.value then Found(fetched.value[keyId]) else NotFound)
              && (fetched.Some? ==> after.keys == fetched && after.expiresAt == t.stored + c.ttl)
              && (fetched.None? ==> after.keys == c.keys && after.expiresAt == c.expiresAt)
              && after.lastMiss == (if !expired then Some(t.now)
                                    else if reply.NotFound? || (reply.FetchError? && c.keys.Some?) then Some(t.missed)
                                    else c.lastMiss)
  {
  }

  // ---- Returned keys are at most one lifetime old -----------------------

  // The cached set is the one fetched by request i.
  ghost predicate FetchedBy(c: Cache, reqs: seq<Request>, n: nat, i: nat)
    requires n <= |reqs|
  {
    && i < n && DidFetch(c, reqs, i) && reqs[i].fetched.Some?
    && At(c, reqs, n).keys == reqs[i].fetched && At(c, reqs, n).expiresAt == reqs[i].t.stored + c.ttl
  }

  lemma {:induction false} CacheHasOrigin(c: Cache, reqs: seq<Request>, n: nat)
    requires c.keys.None? && n <= |reqs|
    ensures At(c, reqs, n).ttl == c.ttl
    ensures At(c, reqs, n).keys.Some? ==> exists i :: FetchedBy(c, reqs, n, i)
  {
    if n > 0 {
      CacheHasOrigin(c, reqs, n - 1);
      if At(c, reqs, n).keys.Some? {
        if DidFetch(c, reqs, n - 1) && reqs[n - 1].fetched.Some? {
          assert FetchedBy(c, reqs, n, n - 1);
        } else {
          var i :| FetchedBy(c, reqs, n - 1, i);
          assert FetchedBy(c, reqs, n, i);
        }
      }
    }
  }

  // Every returned key belongs to a set that some request fetched successfully
  // less than one lifetime before this request (or during it).
  lemma KeysAreCurrent(c: Cache, reqs: seq<Request>, n: nat) returns (i: nat)
    requires c.keys.None? && c.ttl > 0 && n < |reqs| && Serialized(reqs) && ReplyTo(c, reqs, n).Found?
    ensures i <= n && DidFetch(c, reqs, i) && reqs[i].fetched.Some?
    ensures reqs[n].keyId in reqs[i].fetched.value
    ensures ReplyTo(c, reqs, n) == Found(reqs[i].fetched.value[reqs[n].keyId])
    ensures reqs[n].t.now < reqs[i].t.stored + c.ttl
  {
    CacheHasOrigin(c, reqs, n);
    if DidFetch(c, reqs, n) {
      i := n;
    } else {
      i :| FetchedBy(c, reqs, n, i);
    }
  }

  // ---- The throttle ------------------------------------------------------

  // After an unknown-key fetch at time p ...
  predicate Once(c: Cache, p: int) {
    || (c.lastMiss.Some? && c.lastMiss.value >= p)
    || c.expiresAt >= p + MIN_KEY_REFRESH
  }

  // ... and after a second one: nothing more for unknown keys for thirty seconds
  // from p.
  predicate Twice(c: Cache, p: int, now: int) {
    || now >= p + MIN_KEY_REFRESH
    || (c.lastMiss.Some? && c.lastMiss.value >= p
        && (c.expiresAt >= p + MIN_KEY_REFRESH || c.lastMiss.value >= c.expiresAt))
  }

  predicate Ordered(t: Times) { t.now <= t.stored <= t.missed }

  lemma FirstFetch(c: Cache, r: Request)
    requires c.ttl >= MIN_KEY_REFRESH && Ordered(r.t)
    requires Fetches(c, r.keyId, r.t.now) && KeyUnknown(c, r.keyId)
    ensures Once(Call(c, r.keyId, r.t, r.fetched).0, r.t.now)
  {
  }

  lemma OnceStays(c: Cache, r: Request, p: int)
    requires c.ttl >= MIN_KEY_REFRESH && Ordered(r.t) && p <= r.t.now && Once(c, p)
    ensures Once(Call(c, r.keyId, r.t, r.fetched).0, p)
  {
  }

  lemma SecondFetch(c: Cache, r: Request, p: int)
    requires c.ttl >= MIN_KEY_REFRESH && Ordered(r.t) && p <= r.t.now && Once(c, p)
    requires Fetches(c, r.keyId, r.t.now) && KeyUnknown(c, r.keyId)
    ensures Twice(Call(c, r.keyId, r.t, r.fetched).0, p, r.t.now)
  {
  }

  lemma TwiceStays(c: Cache, r: Request, p: int, clock: int)
    requires c.ttl >= MIN_KEY_REFRESH && Ordered(r.t) && p <= clock <= r.t.now && Twice(c, p, clock)
    ensures Twice(Call(c, r.keyId, r.t, r.fetched).0, p, r.t.now)
  {
  }

  lemma NoThird(c: Cache, r: Request, p: int, clock: int)
    requires clock <= r.t.now && Twice(c, p, clock)
    requires Fetches(c, r.keyId, r.t.now) && KeyUnknown(c, r.keyId)
    ensures r.t.now >= p + MIN_KEY_REFRESH
  {
  }

  lemma {:induction false} OnceUntil(c: Cache, reqs: seq<Request>, i: nat, n: nat)
    requires c.ttl >= MIN_KEY_REFRESH && Serialized(reqs) && i < n <= |reqs| && UnknownFetch(c, reqs, i)
    ensures Once(At(c, reqs, n), reqs[i].t.now)
    decreases n
  {
    hide Call, Once;
    TtlConstant(c, reqs, n - 1);
    if n == i + 1 {
      FirstFetch(At(c, reqs, i), reqs[i]);
    } else {
      OnceUntil(c, reqs, i, n - 1);
      OnceStays(At(c, reqs, n - 1), reqs[n - 1], reqs[i].t.now);
    }
  }

  lemma {:induction false} TwiceUntil(c: Cache, reqs: seq<Request>, i: nat, j: nat, n: nat)
    requires c.ttl >= MIN_KEY_REFRESH && Serialized(reqs) && i < j < n <= |reqs|
    requires UnknownFetch(c, reqs, i) && UnknownFetch(c, reqs, j)
    ensures Twice(At(c, reqs, n), reqs[i].t.now, reqs[n - 1].t.now)
    decreases n
  {
    hide Call, Once, Twice;
    TtlConstant(c, reqs, n - 1);
    if n == j + 1 {
      OnceUntil(c, reqs, i, j);
      SecondFetch(At(c, reqs, j), reqs[j], reqs[i].t.now);
    } else {
      TwiceUntil(c, reqs, i, j, n - 1);
      TwiceStays(At(c, reqs, n - 1), reqs[n - 1], reqs[i].t.now, reqs[n - 2].t.now);
    }
  }

  lemma {:induction false} TtlConstant(c: Cache, reqs: seq<Request>, n: nat)
    requires n <= |reqs|
    ensures At(c, reqs, n).ttl == c.ttl
  {
    if n > 0 {
      TtlConstant(c, reqs, n - 1);
    }
  }

  // Three fetches for unknown key IDs span at least thirty seconds: a shorter
  // span holds at most two, however many calls arrive and however fetches end.
  lemma UnknownKeysAreThrottled(c: Cache, reqs: seq<Request>, i: nat, j: nat, k: nat)
    requires c.ttl >= MIN_KEY_REFRESH && Serialized(reqs) && i < j < k < |reqs|
    requires UnknownFetch(c, reqs, i) && UnknownFetch(c, reqs, j) && UnknownFetch(c, reqs, k)
    ensures reqs[k].t.now - reqs[i].t.now >= MIN_KEY_REFRESH
  {
    hide Call, Twice;
    TwiceUntil(c, reqs, i, j, k);
    NoThird(At(c, reqs, k), reqs[k], reqs[i].t.now, reqs[k - 1].t.now);
  }

  // The lifetime condition is exact: at every lifetime below thirty seconds three
  // such fetches fit into a shorter span.
  lemma ShortLifetimeEscapesThrottle(ttl: int, known: string, x: string, y: string, key: RsaKey)
    requires 0 < ttl < MIN_KEY_REFRESH && known != x && known != y && x != y
    ensures var c := Cache(ttl, Some(map[known := key]), 0, None);
            var m := map[known := key, x := key];
            var reqs := [Request(x, Times(0, 0, 0), Some(m)), Request(y, Times(0, 0, 0), None),
                         Request(y, Times(ttl, ttl, ttl), None)];
            && Serialized(reqs) && UnknownFetch(c, reqs, 0) && UnknownFetch(c, reqs, 1) && UnknownFetch(c, reqs, 2)
            && reqs[2].t.now - reqs[0].t.now < MIN_KEY_REFRESH
  {
    var c := Cache(ttl, Some(map[known := key]), 0, None);
    var m := map[known := key, x := key];
    var reqs := [Request(x, Times(0, 0, 0), Some(m)), Request(y, Times(0, 0, 0), None),
                 Request(y, Times(ttl, ttl, ttl), None)];
    assert At(c, reqs, 0) == c;
    assert At(c, reqs, 1) == Cache(ttl, Some(m), ttl, None);
    assert At(c, reqs, 2) == Cache(ttl, Some(m), ttl, Some(0));
  }

  // Before the first successful fetch nothing is throttled: while fetches fail,
  // every call goes to the network.
  lemma {:induction false} EmptyCacheIsNotThrottled(c: Cache, reqs: seq<Request>, n: nat)
    requires c.keys.None? && n < |reqs| && forall i :: 0 <= i < |reqs| ==> reqs[i].fetched.None?
    ensures DidFetch(c, reqs, n) && At(c, reqs, n) == c
  {
    if n > 0 {
      EmptyCacheIsNotThrottled(c, reqs, n - 1);
    }
  }
}
