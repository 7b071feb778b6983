// The dashboard's key cache under overlapping calls: each critical section is one
// step, a fetch runs between steps, and callers that find one under way wait for
// it.
module JwksConcurrent {
  import opened Optional
  import opened JwksCache

  type Caller = nat

  type KeyMap = map<string, RsaKey>

  // A call that has passed the gate: its clock on entry, and what it saw.
  datatype Pass = Pass(keyId: string, since: int, expired: bool, unknown: bool)

  // from: when the fetch that the caller runs or waits for started.
  datatype Phase =
    | Idle
    | Wants(w: Pass)                         // past the gate, not yet in refresh
    | Fetching(w: Pass, from: int)
    | Landed(w: Pass, from: int, ok: bool)   // stored or failed, channel still open
    | Waiting(w: Pass, from: int, ticket: nat)
    | Refreshed(w: Pass, from: int, ok: bool)
    | Answered(since: int, shared: Option<int>, reply: Reply)

  // flight and started describe the fetch under way, closed the start of the last
  // one that ended, ended how many have, refreshOk its outcome.  stores and starts
  // are histories that no step reads.
  datatype System = System(
    cache: Cache, flight: Option<Caller>, started: int, closed: int, ended: nat, refreshOk: bool, clock: int,
    phases: map<Caller, Phase>, stores: seq<(KeyMap, int)>, starts: seq<int>)

  function Initial(ttl: int): System {
    System(Cache(ttl, None, 0, None), None, 0, 0, 0, false, 0, map[], [], [])
  }

  datatype Action = Enter(keyId: string) | Join | Land(fetched: Option<KeyMap>) | Close | Wake | Cancel | Finish | Wait(d: nat)

  function PhaseOf(s: System, p: Caller): Phase { if p in s.phases then s.phases[p] else Idle }

  function At(s: System, p: Caller, ph: Phase): System { s.(phases := s.phases[p := ph]) }

  function StepEnter(s: System, p: Caller, keyId: string): System {
    var c, now := s.cache, s.clock;
    if Served(c, keyId, now) then At(s, p, Answered(now, None, JwksCache.Lookup(c, keyId)))
    else if Throttled(c, keyId, now) then At(s, p, Answered(now, None, NotFound))
    else if CacheExpired(c, now) then At(s, p, Wants(Pass(keyId, now, true, KeyUnknown(c, keyId))))
    else At(s.(cache := c.(lastMiss := Some(now))), p, Wants(Pass(keyId, now, false, true)))
  }

  function StepJoin(s: System, p: Caller, w: Pass): System {
    if s.flight.Some? then At(s, p, Waiting(w, s.started, s.ended))
    else At(s.(flight := Some(p), started := s.clock, starts := s.starts + [s.clock]), p, Fetching(w, s.clock))
  }

  function StepLand(s: System, p: Caller, ph: Phase, fetched: Option<KeyMap>): System
    requires ph.Fetching?
  {
    At(s.(cache := Store(s.cache, fetched, s.clock),
          stores := if fetched.Some? then s.stores + [(fetched.value, s.clock)] else s.stores),
       p, Landed(ph.w, ph.from, fetched.Some?))
  }

  function StepClose(s: System, p: Caller, ph: Phase): System
    requires ph.Landed?
  {
    At(s.(refreshOk := ph.ok, flight := None, ended := s.ended + 1, closed := s.started), p, Refreshed(ph.w, ph.from, ph.ok))
  }

  function StepFinish(s: System, p: Caller, ph: Phase): System
    requires ph.Refreshed?
  {
    var missed := s.(cache := s.cache.(lastMiss := Some(s.clock)));
    if !ph.ok then At(if ph.w.expired && ph.w.unknown then missed else s, p, Answered(ph.w.since, Some(ph.from), FetchError))
    else
      var reply := JwksCache.Lookup(s.cache, ph.w.keyId);
      At(if reply.NotFound? && ph.w.expired then missed else s, p, Answered(ph.w.since, Some(ph.from), reply))
  }

  // A step that is not enabled changes nothing.
  function Step(s: System, p: Caller, a: Action): System {
    var ph := PhaseOf(s, p);
    match a
    case Wait(d) => s.(clock := s.clock + d)
    case Enter(keyId) => if ph.Idle? || ph.Answered? then StepEnter(s, p, keyId) else s
    case Join => if ph.Wants? then StepJoin(s, p, ph.w) else s
    case Land(f) => if ph.Fetching? then StepLand(s, p, ph, f) else s
    case Close => if ph.Landed? then StepClose(s, p, ph) else s
    case Wake => if ph.Waiting? && ph.ticket < s.ended then At(s, p, Refreshed(ph.w, ph.from, s.refreshOk)) else s
    case Cancel => if ph.Waiting? then At(s, p, Refreshed(ph.w, ph.from, false)) else s
    case Finish => if ph.Refreshed? then StepFinish(s, p, ph) else s
  }

  datatype Turn = Turn(p: Caller, a: Action)

  function Run(s: System, turns: seq<Turn>): System {
    if turns == [] then s
    else
      var t := turns[|turns| - 1];
      Step(Run(s, turns[..|turns| - 1]), t.p, t.a)
  }

  // ---- What every interleaving keeps ------------------------------------

  predicate InFlight(ph: Phase) { ph.Fetching? || ph.Landed? }

  function LastStore(s: System): (KeyMap, int)
    requires s.stores != []
  {
    s.stores[|s.stores| - 1]
  }

  // Some set was stored at or after the given time.
  predicate StoredSince(s: System, from: int) { s.stores != [] && LastStore(s).1 >= from }

  // A found key comes from a stored set that was not yet expired on entry, or was
  // stored no earlier than the fetch that the call shared began.
  ghost predicate Sourced(s: System, ph: Phase)
    requires ph.Answered?
  {
    ph.reply.Found? ==> exists i :: 0 <= i < |s.stores| && SourcedBy(s, ph, i)
  }

  ghost predicate SourcedBy(s: System, ph: Phase, i: nat)
    requires ph.Answered? && ph.reply.Found? && i < |s.stores|
  {
    && (exists id :: id in s.stores[i].0 && s.stores[i].0[id] == ph.reply.key)
    && (ph.since < s.stores[i].1 + s.cache.ttl || (ph.shared.Some? && ph.shared.value <= s.stores[i].1))
  }

  ghost predicate PhaseInv(s: System, p: Caller) {
    var ph := PhaseOf(s, p);
    && (InFlight(ph) <==> s.flight == Some(p))
    && (InFlight(ph) ==> ph.from == s.started)
    && (ph.Landed? && ph.ok ==> StoredSince(s, ph.from))
    && (ph.Waiting? ==> ph.ticket <= s.ended && (ph.ticket == s.ended ==> s.flight.Some? && ph.from == s.started)
                        && (ph.ticket < s.ended ==> ph.from <= s.closed))
    && (ph.Refreshed? && ph.ok ==> StoredSince(s, ph.from))
    && (ph.Answered? ==> Sourced(s, ph))
  }

  ghost predicate CacheInv(s: System) {
    && s.closed <= s.started <= s.clock
    && (s.cache.keys.Some? <==> s.stores != [])
    && (s.stores != [] ==> s.cache.keys == Some(LastStore(s).0) && s.cache.expiresAt == LastStore(s).1 + s.cache.ttl)
    && (forall i :: 0 <= i < |s.stores| ==> s.stores[i].1 <= s.clock)
    && (s.refreshOk ==> StoredSince(s, s.closed))
  }

  ghost predicate Inv(s: System) { CacheInv(s) && forall p: Caller :: PhaseInv(s, p) }

  // What a step of one caller does not take away from another.
  ghost predicate Extends(s: System, t: System, p: Caller) {
    && s.stores <= t.stores && t.cache.ttl == s.cache.ttl
    && (forall q: Caller :: q != p ==> PhaseOf(t, q) == PhaseOf(s, q))
    && (s.stores != [] ==> LastStore(t).1 >= LastStore(s).1)
    && s.closed <= t.closed && s.ended <= t.ended
    && (t.ended == s.ended ==> t.closed == s.closed)
    && (t.ended > s.ended ==> s.started <= t.closed && s.flight == Some(p))
    && (t.ended == s.ended && s.flight.Some? ==> t.flight == s.flight && t.started == s.started)
    && (s.flight != t.flight ==> (s.flight == Some(p) && t.flight.None?) || (s.flight.None? && t.flight == Some(p)))
  }

  lemma SourcedStays(s: System, t: System, ph: Phase)
    requires ph.Answered? && Sourced(s, ph) && s.stores <= t.stores && t.cache.ttl == s.cache.ttl
    ensures Sourced(t, ph)
  {
    if ph.reply.Found? {
      var i :| 0 <= i < |s.stores| && SourcedBy(s, ph, i);
      assert t.stores[i] == s.stores[i];
      assert SourcedBy(t, ph, i);
    }
  }

  lemma OthersKeep(s: System, t: System, p: Caller, q: Caller)
    requires PhaseInv(s, q) && Extends(s, t, p) && q != p
    ensures PhaseInv(t, q)
  {
    hide Sourced;
    var ph := PhaseOf(s, q);
    if ph.Answered? {
      SourcedStays(s, t, ph);
    }
  }

  lemma StepExtends(s: System, p: Caller, a: Action)
    requires Inv(s)
    ensures Extends(s, Step(s, p, a), p)
  {
    hide Served, Throttled, CacheExpired, KeyUnknown, Sourced;
    assert PhaseInv(s, p);
  }

  lemma StepKeepsCache(s: System, p: Caller, a: Action)
    requires Inv(s)
    ensures CacheInv(Step(s, p, a))
  {
    hide Served, Throttled, CacheExpired, KeyUnknown, Sourced;
    assert PhaseInv(s, p);
  }

  lemma ReplyIsSourced(s: System, ph: Phase, keyId: string)
    requires CacheInv(s) && ph.Answered? && ph.reply == JwksCache.Lookup(s.cache, keyId)
    requires s.stores != [] ==> ph.since < LastStore(s).1 + s.cache.ttl || (ph.shared.Some? && ph.shared.value <= LastStore(s).1)
    ensures Sourced(s, ph)
  {
    if ph.reply.Found? {
      var i := |s.stores| - 1;
      assert keyId in s.stores[i].0 && s.stores[i].0[keyId] == ph.reply.key;
      assert SourcedBy(s, ph, i);
    }
  }

  lemma OwnPhaseKeeps(s: System, p: Caller, a: Action)
    requires Inv(s)
    ensures PhaseInv(Step(s, p, a), p)
  {
    hide Throttled, KeyUnknown, Sourced, JwksCache.Lookup, Inv;
    assert PhaseInv(s, p) && CacheInv(s) by { InvAt(s, p); }
    var t := Step(s, p, a);
    StepKeepsCache(s, p, a);
    var was, now := PhaseOf(s, p), PhaseOf(t, p);
    if now.Answered? {
      AnswerIsSourced(s, p, a);
    }
  }

  lemma InvAt(s: System, p: Caller)
    requires Inv(s)
    ensures PhaseInv(s, p) && CacheInv(s)
  {
  }

  lemma AnswerIsSourced(s: System, p: Caller, a: Action)
    requires PhaseInv(s, p) && CacheInv(s) && CacheInv(Step(s, p, a)) && PhaseOf(Step(s, p, a), p).Answered?
    ensures Sourced(Step(s, p, a), PhaseOf(Step(s, p, a), p))
  {
    hide Throttled, KeyUnknown, Sourced;
    var t := Step(s, p, a);
    var was, now := PhaseOf(s, p), PhaseOf(t, p);
    if was.Answered? && now == was {
      SourcedStays(s, t, was);
    } else if now.reply.Found? {
      ReplyIsSourced(t, now, if a.Enter? then a.keyId else was.w.keyId);
    } else {
      NotFoundIsSourced(t, now);
    }
  }

  lemma NotFoundIsSourced(s: System, ph: Phase)
    requires ph.Answered? && !ph.reply.Found?
    ensures Sourced(s, ph)
  {
  }

  lemma StepKeepsInv(s: System, p: Caller, a: Action)
    requires Inv(s)
    ensures Inv(Step(s, p, a))
  {
    hide Step, PhaseInv, CacheInv, Extends;
    StepKeepsCache(s, p, a);
    StepExtends(s, p, a);
    OwnPhaseKeeps(s, p, a);
    forall q: Caller ensures PhaseInv(Step(s, p, a), q) {
      if q != p {
        OthersKeep(s, Step(s, p, a), p, q);
      }
    }
  }

  lemma InitialInv(ttl: int)
    ensures Inv(Initial(ttl))
  {
  }

  lemma {:induction false} RunKeepsInv(ttl: int, turns: seq<Turn>)
    ensures Inv(Run(Initial(ttl), turns))
  {
    hide Step, Inv;
    if turns == [] {
      InitialInv(ttl);
    } else {
      var t := turns[|turns| - 1];
      RunKeepsInv(ttl, turns[..|turns| - 1]);
      StepKeepsInv(Run(Initial(ttl), turns[..|turns| - 1]), t.p, t.a);
    }
  }

  // However calls overlap, at most one fetch is under way ...
  lemma OneFetchAtATime(ttl: int, turns: seq<Turn>, p: Caller, q: Caller)
    requires InFlight(PhaseOf(Run(Initial(ttl), turns), p)) && InFlight(PhaseOf(Run(Initial(ttl), turns), q))
    ensures p == q
  {
    hide Run;
    RunKeepsInv(ttl, turns);
    InvAt(Run(Initial(ttl), turns), p);
    InvAt(Run(Initial(ttl), turns), q);
  }

  // ... and every key found comes from a set that was stored less than a lifetime
  // before the call, or since the start of the fetch that the call shared.
  lemma FoundKeysAreSourced(ttl: int, turns: seq<Turn>, p: Caller)
    requires PhaseOf(Run(Initial(ttl), turns), p).Answered?
    ensures Sourced(Run(Initial(ttl), turns), PhaseOf(Run(Initial(ttl), turns), p))
  {
    hide Run, Sourced;
    RunKeepsInv(ttl, turns);
    InvAt(Run(Initial(ttl), turns), p);
  }

  // A call that no other overlaps is the serialized call.
  lemma UndisturbedCallIsSerialized(s: System, p: Caller, keyId: string, d1: nat, d2: nat, fetched: Option<KeyMap>)
    requires s.flight.None? && (PhaseOf(s, p).Idle? || PhaseOf(s, p).Answered?)
    ensures var looked := Step(Step(s, p, Enter(keyId)), p, Join);
            var landed := Step(Step(looked, p, Wait(d1)), p, Land(fetched));
            var t := Step(Step(Step(landed, p, Close), p, Wait(d2)), p, Finish);
            var (c, r) := Call(s.cache, keyId, Times(s.clock, s.clock + d1, s.clock + d1 + d2), fetched);
            t.cache == c && PhaseOf(t, p).Answered? && PhaseOf(t, p).reply == r
  {
    hide Throttled, RecentMiss, MissSinceExpiry;
    var entered := Step(s, p, Enter(keyId));
    var looked := Step(entered, p, Join);
    var landed := Step(Step(looked, p, Wait(d1)), p, Land(fetched));
    if Served(s.cache, keyId, s.clock) || Throttled(s.cache, keyId, s.clock) {
      assert PhaseOf(landed, p).Answered?;
    } else {
      assert PhaseOf(looked, p) == Fetching(PhaseOf(entered, p).w, s.clock);
      assert PhaseOf(landed, p) == Landed(PhaseOf(entered, p).w, s.clock, fetched.Some?);
      var closed := Step(landed, p, Close);
      assert PhaseOf(closed, p) == Refreshed(PhaseOf(entered, p).w, s.clock, fetched.Some?);
    }
  }

  // A caller that waits shares the outcome of the fetch it waited for, success and
  // set included; one that gives up waiting reports an error.
  lemma WaiterSharesOutcome(s: System, p: Caller, q: Caller, fetched: Option<KeyMap>)
    requires p != q && s.flight == Some(q) && PhaseOf(s, q).Fetching?
    requires PhaseOf(s, p).Waiting? && PhaseOf(s, p).ticket == s.ended
    ensures var closed := Step(Step(s, q, Land(fetched)), q, Close);
            var (shared, gaveUp) := (Step(Step(closed, p, Wake), p, Finish), Step(Step(s, p, Cancel), p, Finish));
            var keyId := PhaseOf(s, p).w.keyId;
            && PhaseOf(shared, p).Answered? && PhaseOf(gaveUp, p).Answered? && PhaseOf(gaveUp, p).reply == FetchError
            && PhaseOf(shared, p).reply ==
               (if fetched.None? then FetchError else if keyId in fetched.value then Found(fetched.value[keyId]) else NotFound)
  {
    var landed := Step(s, q, Land(fetched));
    assert PhaseOf(landed, p) == PhaseOf(s, p);
    var closed := Step(landed, q, Close);
    assert PhaseOf(closed, p) == PhaseOf(s, p) && closed.refreshOk == fetched.Some?;
    var woken := Step(closed, p, Wake);
    assert PhaseOf(woken, p) == Refreshed(PhaseOf(s, p).w, PhaseOf(s, p).from, fetched.Some?);
    var cancelled := Step(s, p, Cancel);
    assert PhaseOf(cancelled, p) == Refreshed(PhaseOf(s, p).w, PhaseOf(s, p).from, false);
  }

  // ---- The throttle under overlap ---------------------------------------

  lemma RunSnoc(s: System, turns: seq<Turn>, p: Caller, a: Action)
    ensures Run(s, turns + [Turn(p, a)]) == Step(Run(s, turns), p, a)
  {
    assert (turns + [Turn(p, a)])[..|turns|] == turns;
  }

  // Callers from k up to n are past the gate of an expired cache, none in flight.
  ghost predicate Queued(s: System, k: nat, n: nat, keyId: string) {
    && s.flight.None? && s.cache.keys.Some? && keyId !in s.cache.keys.value
    && forall i: Caller :: k <= i < n ==> PhaseOf(s, i) == Wants(Pass(keyId, s.clock, true, true))
  }

  // One set is fetched and expires.
  lemma Prelude(ttl: int, known: string, key: RsaKey) returns (turns: seq<Turn>)
    requires ttl > 0
    ensures Run(Initial(ttl), turns) ==
            System(Cache(ttl, Some(map[known := key]), ttl, None), None, 0, 0, 1, true, ttl,
                   map[0 := Answered(0, Some(0), Found(key))], [(map[known := key], 0)], [0])
  {
    hide Run;
    var s := Initial(ttl);
    turns := [];
    assert Run(s, []) == s by { RunNothing(s); }
    RunSnoc(s, turns, 0, Enter(known));
    turns := turns + [Turn(0, Enter(known))];
    assert Run(s, turns).phases == map[0 := Wants(Pass(known, 0, true, false))];
    RunSnoc(s, turns, 0, Join);
    turns := turns + [Turn(0, Join)];
    assert Run(s, turns).phases == map[0 := Fetching(Pass(known, 0, true, false), 0)] && Run(s, turns).starts == [0];
    RunSnoc(s, turns, 0, Land(Some(map[known := key])));
    turns := turns + [Turn(0, Land(Some(map[known := key])))];
    assert Run(s, turns).phases == map[0 := Landed(Pass(known, 0, true, false), 0, true)]
           && Run(s, turns).stores == [(map[known := key], 0)];
    RunSnoc(s, turns, 0, Close);
    turns := turns + [Turn(0, Close)];
    assert Run(s, turns).phases == map[0 := Refreshed(Pass(known, 0, true, false), 0, true)];
    RunSnoc(s, turns, 0, Finish);
    turns := turns + [Turn(0, Finish)];
    assert Run(s, turns).phases == map[0 := Answered(0, Some(0), Found(key))];
    RunSnoc(s, turns, 0, Wait(ttl));
    turns := turns + [Turn(0, Wait(ttl))];
  }

  lemma RunNothing(s: System)
    ensures Run(s, []) == s
  {
  }

  // Then n callers come in for an unknown key, and all pass the gate.
  lemma {:induction false} AllEnter(ttl: int, known: string, key: RsaKey, keyId: string, n: nat) returns (turns: seq<Turn>)
    requires ttl > 0 && keyId != known
    ensures var s := Run(Initial(ttl), turns);
            && Queued(s, 0, n, keyId) && s.clock == ttl && s.starts == [0]
            && s.cache == Cache(ttl, Some(map[known := key]), ttl, None)
            && forall i: Caller :: n <= i ==> PhaseOf(s, i).Idle? || PhaseOf(s, i).Answered?
  {
    hide Run;
    if n == 0 {
      turns := Prelude(ttl, known, key);
    } else {
      turns := AllEnter(ttl, known, key, keyId, n - 1);
      var s := Run(Initial(ttl), turns);
      RunSnoc(Initial(ttl), turns, n - 1, Enter(keyId));
      turns := turns + [Turn(n - 1, Enter(keyId))];
      var t := Run(Initial(ttl), turns);
      assert forall i: Caller :: i != n - 1 ==> PhaseOf(t, i) == PhaseOf(s, i);
      assert PhaseOf(t, n - 1) == Wants(Pass(keyId, ttl, true, true));
    }
  }

  // Each in turn fetches, unsuccessfully, before the next one looks.
  lemma {:induction false} AllFetch(ttl: int, known: string, key: RsaKey, keyId: string, n: nat, k: nat) returns (turns: seq<Turn>)
    requires ttl > 0 && keyId != known && k <= n
    ensures var s := Run(Initial(ttl), turns);
            Queued(s, k, n, keyId) && s.clock == ttl && s.starts == [0] + seq(k, i => ttl)
    decreases k
  {
    hide Run, Step, Queued;
    if k == 0 {
      turns := AllEnter(ttl, known, key, keyId, n);
      assert [0] + seq(0, i => ttl) == [0];
    } else {
      turns := AllFetch(ttl, known, key, keyId, n, k - 1);
      var s, p := Run(Initial(ttl), turns), k - 1;
      RunSnoc(Initial(ttl), turns, p, Join);
      RunSnoc(Initial(ttl), turns + [Turn(p, Join)], p, Land(None));
      RunSnoc(Initial(ttl), turns + [Turn(p, Join)] + [Turn(p, Land(None))], p, Close);
      turns := turns + [Turn(p, Join)] + [Turn(p, Land(None))] + [Turn(p, Close)];
      OneMoreFetch(s, p, n, keyId);
      assert [0] + seq(k - 1, i => ttl) + [ttl] == [0] + seq(k, i => ttl);
    }
  }

  lemma OneMoreFetch(s: System, p: Caller, n: nat, keyId: string)
    requires p < n && Queued(s, p, n, keyId)
    ensures var t := Step(Step(Step(s, p, Join), p, Land(None)), p, Close);
            Queued(t, p + 1, n, keyId) && t.clock == s.clock && t.starts == s.starts + [s.clock]
  {
    var w := Pass(keyId, s.clock, true, true);
    var s1 := Step(s, p, Join);
    assert PhaseOf(s1, p) == Fetching(w, s.clock);
    var s2 := Step(s1, p, Land(None));
    assert PhaseOf(s2, p) == Landed(w, s.clock, false);
    var t := Step(s2, p, Close);
    assert forall i: Caller :: i != p ==> PhaseOf(t, i) == PhaseOf(s, i);
  }

  // The gate and the start of a fetch are two critical sections: whatever the
  // lifetime, n overlapping calls for an unknown key can make n fetches at one
  // instant, all of them after the cache was first filled.
  lemma OverlapEscapesThrottle(ttl: int, known: string, key: RsaKey, keyId: string, n: nat) returns (turns: seq<Turn>)
    requires ttl > 0 && keyId != known
    ensures Run(Initial(ttl), turns).starts == [0] + seq(n, i => ttl)
  {
    turns := AllFetch(ttl, known, key, keyId, n, n);
  }
}
