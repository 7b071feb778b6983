// Per-agent request budgets over tumbling windows.
module Budget {
  import opened Optional

  // A limit of zero or less means "not enforced"; window is in clock units.
  datatype Config = Config(maxRequests: int, maxBytes: int, maxDomains: int, window: int)

  datatype Tracker = Tracker(cfg: Config, requests: nat, bytes: int, domains: set<string>, windowStart: int)

  datatype Snapshot = Snapshot(requests: nat, bytes: int, domainCount: nat, windowStart: int, cfg: Config)

  // The two clock readings a call makes: the comparison, then (on a reset) the
  // new window's start.
  datatype Clock = Clock(first: int, second: int)

  function WindowExpired(t: Tracker, now: int): bool {
    t.cfg.window > 0 && now - t.windowStart > t.cfg.window
  }

  // maybeResetWindow
  function Refresh(t: Tracker, clock: Clock): Tracker {
    if WindowExpired(t, clock.first) then Tracker(t.cfg, 0, 0, {}, clock.second) else t
  }

  predicate RequestsSpent(t: Tracker) { t.cfg.maxRequests > 0 && t.requests >= t.cfg.maxRequests }

  predicate DomainsSpent(t: Tracker, domain: string) {
    t.cfg.maxDomains > 0 && domain !in t.domains && |t.domains| >= t.cfg.maxDomains
  }

  function Admitted(t: Tracker, domain: string, bytes: int): Tracker {
    t.(requests := t.requests + 1, bytes := t.bytes + bytes,
       domains := if t.cfg.maxDomains > 0 then t.domains + {domain} else t.domains)
  }

  datatype Call = CheckAdmission(domain: string) | RecordBytes(n: int) | RemainingBytes | RecordRequest(domain: string, n: int)

  // The tracker after a call, and whether the call returned no error.
  function Apply(t: Tracker, clock: Clock, call: Call): (Tracker, bool) {
    Charged(Refresh(t, clock), call)
  }

  function Charged(t: Tracker, call: Call): (Tracker, bool) {
    match call
    case CheckAdmission(d) =>
      if RequestsSpent(t) || DomainsSpent(t, d) then (t, false) else (Admitted(t, d, 0), true)
    case RecordBytes(n) =>
      var u := t.(bytes := t.bytes + n);
      (u, !(u.cfg.maxBytes > 0 && u.bytes > u.cfg.maxBytes))
    case RemainingBytes => (t, true)
    case RecordRequest(d, n) =>
      if RequestsSpent(t) || (t.cfg.maxBytes > 0 && t.bytes + n > t.cfg.maxBytes) || DomainsSpent(t, d) then (t, false)
      else (Admitted(t, d, n), true)
  }

  function Remaining(t: Tracker): int {
    if t.cfg.maxBytes <= 0 then -1
    else if t.cfg.maxBytes - t.bytes < 0 then 0
    else t.cfg.maxBytes - t.bytes
  }

  class BudgetTracker {
    const cfg: Config
    var requestCount: nat
    var byteCount: int
    var uniqueDomains: set<string>
    var windowStart: int

    function State(): Tracker reads this { Tracker(cfg, requestCount, byteCount, uniqueDomains, windowStart) }

    // NewBudgetTracker: no tracker when there is no configuration or no limit.
    static method New(cfg: Option<Config>, now: int) returns (b: BudgetTracker?)
      ensures b == null <==> cfg.None? || (cfg.value.maxRequests == 0 && cfg.value.maxBytes == 0 && cfg.value.maxDomains == 0)
      ensures b != null ==> fresh(b) && b.State() == Tracker(cfg.value, 0, 0, {}, now)
    {
      if cfg.None? { return null; }
      if cfg.value.maxRequests == 0 && cfg.value.maxBytes == 0 && cfg.value.maxDomains == 0 { return null; }
      b := new BudgetTracker(cfg.value, now);
    }

    constructor (cfg: Config, now: int)
      ensures State() == Tracker(cfg, 0, 0, {}, now)
    {
      this.cfg := cfg;
      requestCount, byteCount, uniqueDomains, windowStart := 0, 0, {}, now;
    }

    method MaybeResetWindow(clock: Clock)
      modifies this
      ensures State() == Refresh(old(State()), clock)
    {
      if cfg.window <= 0 { return; }
      if clock.first - windowStart > cfg.window {
        requestCount, byteCount, uniqueDomains := 0, 0, {};
        windowStart := clock.second;
      }
    }

    method CheckAdmission(clock: Clock, domain: string) returns (ok: bool)
      modifies this
      ensures (State(), ok) == Apply(old(State()), clock, Call.CheckAdmission(domain))
    {
      MaybeResetWindow(clock);
      if cfg.maxRequests > 0 && requestCount >= cfg.maxRequests { return false; }
      if cfg.maxDomains > 0 {
        if domain !in uniqueDomains {
          if |uniqueDomains| >= cfg.maxDomains { return false; }
        }
      }
      requestCount := requestCount + 1;
      if cfg.maxDomains > 0 { uniqueDomains := uniqueDomains + {domain}; }
      return true;
    }

    // The bytes are counted even when the limit is passed.
    method RecordBytes(clock: Clock, n: int) returns (ok: bool)
      modifies this
      ensures (State(), ok) == Apply(old(State()), clock, Call.RecordBytes(n))
    {
      MaybeResetWindow(clock);
      byteCount := byteCount + n;
      return !(cfg.maxBytes > 0 && byteCount > cfg.maxBytes);
    }

    method RemainingBytes(clock: Clock) returns (n: int)
      modifies this
      ensures State() == Refresh(old(State()), clock) && n == Remaining(State())
    {
      MaybeResetWindow(clock);
      if cfg.maxBytes <= 0 { return -1; }
      var remaining := cfg.maxBytes - byteCount;
      if remaining < 0 { return 0; }
      return remaining;
    }

    method RecordRequest(clock: Clock, domain: string, bodyBytes: int) returns (ok: bool)
      modifies this
      ensures (State(), ok) == Apply(old(State()), clock, Call.RecordRequest(domain, bodyBytes))
    {
      MaybeResetWindow(clock);
      if cfg.maxRequests > 0 && requestCount >= cfg.maxRequests { return false; }
      if cfg.maxBytes > 0 && byteCount + bodyBytes > cfg.maxBytes { return false; }
      if cfg.maxDomains > 0 {
        if domain !in uniqueDomains {
          if |uniqueDomains| >= cfg.maxDomains { return false; }
        }
      }
      requestCount := requestCount + 1;
      byteCount := byteCount + bodyBytes;
      if cfg.maxDomains > 0 { uniqueDomains := uniqueDomains + {domain}; }
      return true;
    }

    method Reset(now: int)
      modifies this
      ensures State() == Tracker(cfg, 0, 0, {}, now)
    {
      requestCount, byteCount, uniqueDomains, windowStart := 0, 0, {}, now;
    }

    // Reads only, yet shows what a mutating call at the same instant would see.
    method TakeSnapshot(now: int) returns (s: Snapshot)
      ensures var t := Refresh(State(), Clock(now, now));
              s == Snapshot(t.requests, t.bytes, |t.domains|, t.windowStart, cfg)
    {
      var requests, bytes, count, start := requestCount, byteCount, |uniqueDomains|, windowStart;
      if cfg.window > 0 && now - start > cfg.window {
        requests, bytes, count, start := 0, 0, 0, now;
      }
      return Snapshot(requests, bytes, count, start, cfg);
    }
  }

  // ---- Runs --------------------------------------------------------------

  datatype Timed = Timed(clock: Clock, call: Call)

  // One entry per call: its effective time, the window it fell into, the call
  // and whether it succeeded.
  datatype LogEntry = LogEntry(time: int, window: int, call: Call, ok: bool)

  function TimeOf(t: Tracker, clock: Clock): int {
    if WindowExpired(t, clock.first) then clock.second else clock.first
  }

  function Final(t: Tracker, calls: seq<Timed>): Tracker {
    if calls == [] then t
    else
      var last := calls[|calls| - 1];
      Apply(Final(t, calls[..|calls| - 1]), last.clock, last.call).0
  }

  function Log(t: Tracker, calls: seq<Timed>): (log: seq<LogEntry>)
    ensures |log| == |calls|
  {
    if calls == [] then []
    else
      var init, last := calls[..|calls| - 1], calls[|calls| - 1];
      var before := Final(t, init);
      var (after, ok) := Apply(before, last.clock, last.call);
      Log(t, init) + [LogEntry(TimeOf(before, last.clock), after.windowStart, last.call, ok)]
  }

  // A monotone clock, read from the tracker's creation on.
  ghost predicate Monotone(t: Tracker, calls: seq<Timed>) {
    && (forall i :: 0 <= i < |calls| ==> t.windowStart <= calls[i].clock.first <= calls[i].clock.second)
    && (forall i, j :: 0 <= i < j < |calls| ==> calls[i].clock.second <= calls[j].clock.first)
  }

  predicate IsAdmission(e: LogEntry) {
    e.ok && (e.call.CheckAdmission? || e.call.RecordRequest?)
  }

  // Successful admissions that fell into the window that started at w.
  function InWindow(log: seq<LogEntry>, w: int): nat {
    if log == [] then 0
    else
      var last := log[|log| - 1];
      InWindow(log[..|log| - 1], w) + (if IsAdmission(last) && last.window == w then 1 else 0)
  }

  function DomainsInWindow(log: seq<LogEntry>, w: int): set<string> {
    set i | 0 <= i < |log| && IsAdmission(log[i]) && log[i].window == w :: log[i].call.domain
  }

  // Successful admissions at times from a to b.
  function Between(log: seq<LogEntry>, a: int, b: int): nat {
    if log == [] then 0
    else
      var last := log[|log| - 1];
      Between(log[..|log| - 1], a, b) + (if IsAdmission(last) && a <= last.time <= b then 1 else 0)
  }

  function DomainsBetween(log: seq<LogEntry>, a: int, b: int): set<string> {
    set i | 0 <= i < |log| && IsAdmission(log[i]) && a <= log[i].time <= b :: log[i].call.domain
  }

  // Bytes charged by successful calls that fell into window w.
  function BytesInWindow(log: seq<LogEntry>, w: int): int {
    if log == [] then 0
    else
      var last := log[|log| - 1];
      BytesInWindow(log[..|log| - 1], w) + (if last.ok && last.window == w then Charge(last.call) else 0)
  }

  function Charge(call: Call): int {
    if call.RecordBytes? || call.RecordRequest? then call.n else 0
  }

  // All bytes counted against window w: those of RecordBytes even when it reports
  // an error, those of RecordRequest only when it succeeds.
  function CountedInWindow(log: seq<LogEntry>, w: int): int {
    if log == [] then 0
    else
      var last := log[|log| - 1];
      CountedInWindow(log[..|log| - 1], w)
      + (if last.window == w && (last.call.RecordBytes? || (last.call.RecordRequest? && last.ok)) then last.call.n else 0)
  }

  function BytesBetween(log: seq<LogEntry>, a: int, b: int): int {
    if log == [] then 0
    else
      var last := log[|log| - 1];
      BytesBetween(log[..|log| - 1], a, b) + (if last.ok && a <= last.time <= b then Charge(last.call) else 0)
  }

  // ---- Within one window -------------------------------------------------

  // What the counters say about the log so far.
  ghost predicate CountersOk(cfg: Config, t: Tracker, log: seq<LogEntry>, countBytes: bool) {
    && t.cfg == cfg
    && t.requests == InWindow(log, t.windowStart) && t.bytes == CountedInWindow(log, t.windowStart)
    && (cfg.maxRequests > 0 ==> t.requests <= cfg.maxRequests)
    && (cfg.maxDomains > 0 ==> t.domains == DomainsInWindow(log, t.windowStart) && |t.domains| <= cfg.maxDomains)
    && (countBytes ==> BytesInWindow(log, t.windowStart) <= t.bytes)
    && (countBytes && cfg.maxBytes > 0 ==> BytesInWindow(log, t.windowStart) <= cfg.maxBytes)
    && (forall i :: 0 <= i < |log| ==> log[i].window <= t.windowStart)
  }

  ghost predicate NonNegativeBytes(calls: seq<Timed>) {
    forall i :: 0 <= i < |calls| ==> Charge(calls[i].call) >= 0
  }

  lemma EarlierWindowsOnly(log: seq<LogEntry>, w: int)
    requires forall i :: 0 <= i < |log| ==> log[i].window < w
    ensures InWindow(log, w) == 0 && DomainsInWindow(log, w) == {} && BytesInWindow(log, w) == 0
    ensures CountedInWindow(log, w) == 0
  {
  }

  lemma DomainsSnoc(log: seq<LogEntry>, e: LogEntry, w: int)
    ensures DomainsInWindow(log + [e], w) ==
            DomainsInWindow(log, w) + (if IsAdmission(e) && e.window == w then {e.call.domain} else {})
  {
    var more := log + [e];
    assert forall i :: 0 <= i < |log| ==> more[i] == log[i];
    assert more[|log|] == e;
    forall d | d in DomainsInWindow(log, w) ensures d in DomainsInWindow(more, w) {
      var i :| 0 <= i < |log| && IsAdmission(log[i]) && log[i].window == w && log[i].call.domain == d;
      assert more[i] == log[i];
    }
    if IsAdmission(e) && e.window == w {
      assert more[|log|].call.domain in DomainsInWindow(more, w);
    }
  }

  lemma StepCounters(t: Tracker, log: seq<LogEntry>, timed: Timed, countBytes: bool)
    requires CountersOk(t.cfg, t, log, countBytes) && (countBytes ==> Charge(timed.call) >= 0)
    requires t.windowStart <= timed.clock.first <= timed.clock.second
    ensures var (u, ok) := Apply(t, timed.clock, timed.call);
            CountersOk(t.cfg, u, log + [LogEntry(TimeOf(t, timed.clock), u.windowStart, timed.call, ok)], countBytes)
  {
    hide CountersOk, Charged;
    RefreshCounters(t, log, timed.clock, countBytes);
    ChargeCounters(Refresh(t, timed.clock), log, timed.call, TimeOf(t, timed.clock), countBytes);
  }

  lemma RefreshCounters(t: Tracker, log: seq<LogEntry>, clock: Clock, countBytes: bool)
    requires CountersOk(t.cfg, t, log, countBytes) && t.windowStart <= clock.first <= clock.second
    ensures CountersOk(t.cfg, Refresh(t, clock), log, countBytes)
  {
    hide DomainsInWindow;
    if WindowExpired(t, clock.first) {
      EarlierWindowsOnly(log, clock.second);
    }
  }

  lemma ChargeCounters(t: Tracker, log: seq<LogEntry>, call: Call, time: int, countBytes: bool)
    requires CountersOk(t.cfg, t, log, countBytes) && (countBytes ==> Charge(call) >= 0)
    ensures var (u, ok) := Charged(t, call);
            CountersOk(t.cfg, u, log + [LogEntry(time, u.windowStart, call, ok)], countBytes)
  {
    hide DomainsInWindow;
    var (u, ok) := Charged(t, call);
    var e := LogEntry(time, u.windowStart, call, ok);
    assert (log + [e])[..|log|] == log;
    DomainsSnoc(log, e, u.windowStart);
  }

  lemma {:induction false} RunCounters(t: Tracker, calls: seq<Timed>, countBytes: bool)
    requires t.requests == 0 && t.bytes == 0 && t.domains == {}
    requires Monotone(t, calls) && (countBytes ==> NonNegativeBytes(calls))
    ensures CountersOk(t.cfg, Final(t, calls), Log(t, calls), countBytes)
    ensures calls == [] ==> Final(t, calls) == t
    ensures calls != [] ==> t.windowStart <= Final(t, calls).windowStart <= calls[|calls| - 1].clock.second
  {
    hide CountersOk;
    if calls == [] {
      FreshCounters(t, countBytes);
    } else {
      var init, last := calls[..|calls| - 1], calls[|calls| - 1];
      MonotonePrefix(t, calls);
      RunCounters(t, init, countBytes);
      var before := Final(t, init);
      assert before.cfg == t.cfg by { CfgOf(t, before, Log(t, init), countBytes); }
      assert init != [] ==> calls[|init| - 1].clock.second <= last.clock.first;
      StepCounters(before, Log(t, init), last, countBytes);
    }
  }

  lemma CfgOf(t: Tracker, u: Tracker, log: seq<LogEntry>, countBytes: bool)
    requires CountersOk(t.cfg, u, log, countBytes)
    ensures u.cfg == t.cfg
  {
  }

  lemma FreshCounters(t: Tracker, countBytes: bool)
    requires t.requests == 0 && t.bytes == 0 && t.domains == {}
    ensures CountersOk(t.cfg, t, [], countBytes)
  {
    assert DomainsInWindow([], t.windowStart) == {};
  }

  lemma MonotonePrefix(t: Tracker, calls: seq<Timed>)
    requires calls != [] && Monotone(t, calls)
    ensures Monotone(t, calls[..|calls| - 1])
    ensures NonNegativeBytes(calls) ==> NonNegativeBytes(calls[..|calls| - 1])
  {
  }

  ghost predicate New(t: Tracker) { t.requests == 0 && t.bytes == 0 && t.domains == {} }

  // ---- Every answer, from the log alone ----------------------------------

  // The window that the last call fell into.
  function CurrentWindow(t: Tracker, log: seq<LogEntry>): int {
    if log == [] then t.windowStart else log[|log| - 1].window
  }

  lemma WindowIsCurrent(t: Tracker, calls: seq<Timed>)
    ensures Final(t, calls).windowStart == CurrentWindow(t, Log(t, calls))
  {
  }

  // Whatever came before, a call opens a new window exactly when the clock is past
  // the current one's start plus its length.  It is refused exactly when, by the
  // successful admissions and counted bytes of its window, the request limit is
  // used up, or its domain is new to the window and the domain limit is used up,
  // or its bytes would pass the byte limit.
  lemma AnswersAreExact(t: Tracker, calls: seq<Timed>, next: Timed)
    requires New(t) && Monotone(t, calls + [next])
    ensures var log, cfg, call := Log(t, calls), t.cfg, next.call;
            var current := CurrentWindow(t, log);
            var w := if cfg.window > 0 && next.clock.first > current + cfg.window then next.clock.second else current;
            var used, domains, bytes := InWindow(log, w), DomainsInWindow(log, w), CountedInWindow(log, w);
            var (after, ok) := Apply(Final(t, calls), next.clock, call);
            && after.windowStart == w
            && (call.CheckAdmission? ==>
                  (!ok <==> || (cfg.maxRequests > 0 && used >= cfg.maxRequests)
                            || (cfg.maxDomains > 0 && call.domain !in domains && |domains| >= cfg.maxDomains)))
            && (call.RecordRequest? ==>
                  (!ok <==> || (cfg.maxRequests > 0 && used >= cfg.maxRequests)
                            || (cfg.maxDomains > 0 && call.domain !in domains && |domains| >= cfg.maxDomains)
                            || (cfg.maxBytes > 0 && bytes + call.n > cfg.maxBytes)))
            && (call.RecordBytes? ==> (!ok <==> cfg.maxBytes > 0 && bytes + call.n > cfg.maxBytes))
            && (call.RemainingBytes? ==>
                  ok && Remaining(after) == (if cfg.maxBytes <= 0 then -1 else if bytes > cfg.maxBytes then 0 else cfg.maxBytes - bytes))
  {
    hide DomainsInWindow, InWindow, CountedInWindow, BytesInWindow, Log;
    var all := calls + [next];
    assert all[..|calls|] == calls && all[|calls|] == next;
    MonotonePrefix(t, all);
    RunCounters(t, calls, false);
    WindowIsCurrent(t, calls);
    assert calls != [] ==> all[|calls| - 1] == calls[|calls| - 1];
    RefreshCounters(Final(t, calls), Log(t, calls), next.clock, false);
  }

  // What RemainingBytes promises RecordBytes: n more bytes are accepted exactly
  // when -1 or at least n is reported, except that nothing at all is refused once
  // the limit has been passed.
  lemma RemainingPredicts(t: Tracker, clock: Clock, n: nat)
    ensures var now := Apply(t, clock, RemainingBytes).0;
            var over := now.cfg.maxBytes > 0 && now.bytes > now.cfg.maxBytes;
            (Apply(t, clock, RecordBytes(n)).1 <==> Remaining(now) == -1 || Remaining(now) >= n) <==> !(over && n == 0)
  {
  }

  // In every window the limits hold exactly as configured.
  lemma {:induction false} WindowBound(t: Tracker, calls: seq<Timed>, w: int)
    requires New(t) && Monotone(t, calls)
    ensures t.cfg.maxRequests > 0 ==> InWindow(Log(t, calls), w) <= t.cfg.maxRequests
    ensures t.cfg.maxDomains > 0 ==> |DomainsInWindow(Log(t, calls), w)| <= t.cfg.maxDomains
    ensures NonNegativeBytes(calls) && t.cfg.maxBytes > 0 ==> BytesInWindow(Log(t, calls), w) <= t.cfg.maxBytes
  {
    hide DomainsInWindow, Apply;
    if calls == [] {
      EarlierWindowsOnly([], w);
    } else {
      var init := calls[..|calls| - 1];
      MonotonePrefix(t, calls);
      WindowBound(t, init, w);
      RunCounters(t, calls, NonNegativeBytes(calls));
      var log := Log(t, calls);
      var e := log[|log| - 1];
      assert log == Log(t, init) + [e];
      DomainsSnoc(Log(t, init), e, w);
    }
  }

  // ---- How windows lie in time ------------------------------------------

  // Times and windows never go back; an entry is not before its window's start
  // nor after the next one's, and consecutive starts are more than W apart.
  ghost predicate Ordered(window: int, log: seq<LogEntry>) {
    && (forall i :: 0 <= i < |log| ==> log[i].window <= log[i].time)
    && (forall i, j :: 0 <= i < j < |log| ==>
          && log[i].time <= log[j].time
          && (log[i].window == log[j].window
              || (log[i].time <= log[j].window && window > 0 && log[i].window + window < log[j].window)))
  }

  // The same facts about the tracker that continues the log.
  ghost predicate Continues(window: int, log: seq<LogEntry>, start: int, now: int) {
    forall i :: 0 <= i < |log| ==>
      && log[i].time <= now
      && (log[i].window == start || (log[i].time <= start && window > 0 && log[i].window + window < start))
  }

  lemma {:induction false} RunOrdered(t: Tracker, calls: seq<Timed>)
    requires New(t) && Monotone(t, calls)
    ensures Ordered(t.cfg.window, Log(t, calls))
    ensures calls != [] ==>
              Continues(t.cfg.window, Log(t, calls), Final(t, calls).windowStart, calls[|calls| - 1].clock.second)
  {
    hide CountersOk;
    if calls != [] {
      var init, last := calls[..|calls| - 1], calls[|calls| - 1];
      MonotonePrefix(t, calls);
      RunOrdered(t, init);
      RunCounters(t, init, false);
      var before, log := Final(t, init), Log(t, init);
      CfgOf(t, before, log, false);
      assert init != [] ==> calls[|init| - 1].clock.second <= last.clock.first;
      var (after, ok) := Apply(before, last.clock, last.call);
      var e := LogEntry(TimeOf(before, last.clock), after.windowStart, last.call, ok);
      assert init != [] ==> init[|init| - 1] == calls[|init| - 1];
      StepOrdered(before, log, last, e);
    }
  }

  lemma StepOrdered(t: Tracker, log: seq<LogEntry>, timed: Timed, e: LogEntry)
    requires Ordered(t.cfg.window, log) && Continues(t.cfg.window, log, t.windowStart, timed.clock.first)
    requires t.windowStart <= timed.clock.first <= timed.clock.second
    requires e.time == TimeOf(t, timed.clock) && e.window == Refresh(t, timed.clock).windowStart
    ensures Ordered(t.cfg.window, log + [e])
    ensures Continues(t.cfg.window, log + [e], e.window, timed.clock.second)
  {
  }

  // ---- Any interval of window length ------------------------------------

  predicate Inside(e: LogEntry, a: int, b: int) { a <= e.time <= b }

  // An interval no longer than the window meets at most two windows.
  lemma TwoWindows(window: int, log: seq<LogEntry>, a: int, b: int) returns (w1: int, w2: int)
    requires Ordered(window, log) && b - a <= window
    ensures forall i :: 0 <= i < |log| && Inside(log[i], a, b) ==> log[i].window == w1 || log[i].window == w2
  {
    w1, w2 := 0, 0;
    if exists i :: 0 <= i < |log| && Inside(log[i], a, b) {
      var first := FirstInside(log, a, b);
      w1, w2 := log[first].window, log[first].window;
      if k :| first <= k < |log| && Inside(log[k], a, b) && log[k].window != w1 {
        w2 := log[k].window;
        assert first < k && log[first].time <= log[k].window;
      }
    }
  }

  lemma FirstInside(log: seq<LogEntry>, a: int, b: int) returns (first: nat)
    requires exists i :: 0 <= i < |log| && Inside(log[i], a, b)
    ensures first < |log| && Inside(log[first], a, b)
    ensures forall i :: 0 <= i < first ==> !Inside(log[i], a, b)
  {
    first := 0;
    while !Inside(log[first], a, b)
      invariant first < |log|
      invariant forall i :: 0 <= i < first ==> !Inside(log[i], a, b)
      decreases |log| - first
    {
      first := first + 1;
    }
  }

  ghost predicate Covered(log: seq<LogEntry>, a: int, b: int, w1: int, w2: int) {
    forall i :: 0 <= i < |log| && Inside(log[i], a, b) ==> log[i].window == w1 || log[i].window == w2
  }

  lemma {:induction false} CountCovered(log: seq<LogEntry>, a: int, b: int, w1: int, w2: int)
    requires Covered(log, a, b, w1, w2)
    ensures Between(log, a, b) <= InWindow(log, w1) + (if w1 == w2 then 0 else InWindow(log, w2))
    ensures (forall i :: 0 <= i < |log| ==> Charge(log[i].call) >= 0) ==>
              BytesBetween(log, a, b) <= BytesInWindow(log, w1) + (if w1 == w2 then 0 else BytesInWindow(log, w2))
  {
    if log != [] {
      CountCovered(log[..|log| - 1], a, b, w1, w2);
      assert Inside(log[|log| - 1], a, b) <==> a <= log[|log| - 1].time <= b;
    }
  }

  lemma DomainsCovered(log: seq<LogEntry>, a: int, b: int, w1: int, w2: int)
    requires Covered(log, a, b, w1, w2)
    ensures DomainsBetween(log, a, b) <= DomainsInWindow(log, w1) + DomainsInWindow(log, w2)
    ensures |DomainsBetween(log, a, b)| <= |DomainsInWindow(log, w1)| + |DomainsInWindow(log, w2)|
  {
    var all := DomainsInWindow(log, w1) + DomainsInWindow(log, w2);
    forall d | d in DomainsBetween(log, a, b) ensures d in all {
      var i :| 0 <= i < |log| && IsAdmission(log[i]) && a <= log[i].time <= b && log[i].call.domain == d;
      assert Inside(log[i], a, b);
    }
    SubsetSize(DomainsBetween(log, a, b), all);
    UnionSize(DomainsInWindow(log, w1), DomainsInWindow(log, w2));
  }

  lemma SubsetSize(x: set<string>, y: set<string>)
    requires x <= y
    ensures |x| <= |y|
  {
    assert y == x + (y - x);
  }

  lemma UnionSize(x: set<string>, y: set<string>)
    ensures |x + y| <= |x| + |y|
  {
    assert x + y == x + (y - x);
    assert y == (y - x) + (y * x);
  }

  lemma {:induction false} LogCharges(t: Tracker, calls: seq<Timed>)
    ensures NonNegativeBytes(calls) ==> forall i :: 0 <= i < |calls| ==> Charge(Log(t, calls)[i].call) >= 0
  {
    hide Apply, Charge;
    if calls != [] {
      LogCharges(t, calls[..|calls| - 1]);
    }
  }

  // The rate bound: whatever the calls, any closed interval no longer than the
  // window holds at most twice each configured limit.
  lemma RateBound(t: Tracker, calls: seq<Timed>, a: int, b: int)
    requires New(t) && Monotone(t, calls) && b - a <= t.cfg.window
    ensures t.cfg.maxRequests > 0 ==> Between(Log(t, calls), a, b) <= 2 * t.cfg.maxRequests
    ensures t.cfg.maxDomains > 0 ==> |DomainsBetween(Log(t, calls), a, b)| <= 2 * t.cfg.maxDomains
    ensures NonNegativeBytes(calls) && t.cfg.maxBytes > 0 ==> BytesBetween(Log(t, calls), a, b) <= 2 * t.cfg.maxBytes
  {
    hide Log, Monotone, DomainsInWindow, DomainsBetween, Between, InWindow, Ordered;
    var log := Log(t, calls);
    RunOrdered(t, calls);
    LogCharges(t, calls);
    var w1, w2 := TwoWindows(t.cfg.window, log, a, b);
    WindowBound(t, calls, w1);
    WindowBound(t, calls, w2);
    CountCovered(log, a, b, w1, w2);
    DomainsCovered(log, a, b, w1, w2);
  }

  // Without a window there is one window for ever, and the limits bound the whole run.
  lemma LifetimeBound(t: Tracker, calls: seq<Timed>, a: int, b: int)
    requires New(t) && Monotone(t, calls) && t.cfg.window <= 0
    ensures t.cfg.maxRequests > 0 ==> Between(Log(t, calls), a, b) <= t.cfg.maxRequests
    ensures t.cfg.maxDomains > 0 ==> |DomainsBetween(Log(t, calls), a, b)| <= t.cfg.maxDomains
    ensures NonNegativeBytes(calls) && t.cfg.maxBytes > 0 ==> BytesBetween(Log(t, calls), a, b) <= t.cfg.maxBytes
  {
    hide Log, Monotone, Between, InWindow, DomainsInWindow, DomainsBetween;
    var log := Log(t, calls);
    RunOrdered(t, calls);
    LogCharges(t, calls);
    var w := if log == [] then 0 else log[0].window;
    WindowBound(t, calls, w);
    assert Covered(log, a, b, w, w);
    CountCovered(log, a, b, w, w);
    DomainsCovered(log, a, b, w, w);
    SubsetSize(DomainsBetween(log, a, b), DomainsInWindow(log, w));
  }

  // The window tumbles, it does not roll: a limit of one request per window of
  // w > 0 admits two requests one tick apart.
  lemma TumblingNotRolling(w: int, d: string)
    requires w > 0
    ensures var t := Tracker(Config(1, 0, 0, w), 0, 0, {}, 0);
            var calls := [Timed(Clock(w, w), CheckAdmission(d)), Timed(Clock(w + 1, w + 1), CheckAdmission(d))];
            Monotone(t, calls) && Between(Log(t, calls), w, w + 1) == 2
  {
    var t := Tracker(Config(1, 0, 0, w), 0, 0, {}, 0);
    var c1, c2 := Timed(Clock(w, w), CheckAdmission(d)), Timed(Clock(w + 1, w + 1), CheckAdmission(d));
    assert [c1, c2][..1] == [c1] && [c1][..0] == [];
    assert Final(t, []) == t && Log(t, []) == [];
    var t1 := Final(t, [c1]);
    assert t1 == t.(requests := 1);
    var e1 := LogEntry(w, 0, CheckAdmission(d), true);
    assert Log(t, [c1]) == [] + [e1] == [e1];
    var e2 := LogEntry(w + 1, w + 1, CheckAdmission(d), true);
    assert Log(t, [c1, c2]) == [e1] + [e2] == [e1, e2];
    assert [e1, e2][..1] == [e1] && [e1][..0] == [];
    assert Between([], w, w + 1) == 0;
    assert Between([e1], w, w + 1) == 1;
  }
}
