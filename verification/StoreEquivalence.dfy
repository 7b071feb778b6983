// The two stores give the same answers: each refines the abstract replay set.
module StoreEquivalence {
  import opened Optional
  import opened Lines
  import opened ReplaySet
  import opened ReplayLog
  import opened ReplayHistory
  import opened MemReplayStore

  datatype Op = Commit(entry: Entry) | Compact(before: int) | Restart

  datatype Answer = Result(r: CommitResult) | Removed(n: nat) | Restarted

  // ---- The reference: the abstract replay set ---------------------------

  function RefStep(h: seq<Entry>, op: Op): (Answer, seq<Entry>) {
    match op
    case Commit(e) =>
      if !ValidEntry(e) then (Result(Malformed), h)
      else if Conflicts(h, e) then (Result(ReplayConflict), h)
      else (Result(Committed), h + [e])
    case Compact(before) => (Removed(RemovedCount(h, before)), PruneAll(h, before))
    case Restart => (Restarted, h)
  }

  // ---- The file store, as a function of the file's bytes ----------------
  // A restart drops the maps and rebuilds them from the bytes, so only the
  // bytes are carried from one operation to the next.

  function FileStep(c: Codec, content: Bytes, op: Op): (Answer, Bytes) {
    match FileEntries(c, content)
    case None => (Result(StoreFailure), content)
    case Some(es) =>
      match op
      case Commit(e) =>
        if !ValidEntry(e) then (Result(Malformed), content)
        else if Indexed(IndexOf(es), e) then (Result(ReplayConflict), content)
        else (Result(Committed), content + LineOf(c, e))
      case Compact(before) =>
        (Removed(RemovedCount(es, before)),
         if PruneAll(es, before) == es then content else EncodeAll(c, Compacted(es, before)))
      case Restart => (Restarted, content)
  }

  // ---- The in-memory store (it has no restarts; Restart is a no-op) ------

  function MemStep(m: MemView, op: Op): (Answer, MemView) {
    match op
    case Commit(e) => var (r, v) := MemCommit(m, e); (Result(r), v)
    case Compact(before) => var (n, v) := MemCompact(m, before); (Removed(n), v)
    case Restart => (Restarted, m)
  }

  // ---- File store: refines the replay set on every sequence --------------

  ghost predicate FileSync(c: Codec, content: Bytes, h: seq<Entry>) {
    FileEntries(c, content) == Some(Retained(h))
  }

  lemma FileStepRefines(c: Codec, content: Bytes, h: seq<Entry>, op: Op)
    requires Good(c) && FileSync(c, content, h)
    requires op.Commit? ==> Unpruned(op.entry)
    ensures FileStep(c, content, op).0 == RefStep(h, op).0
    ensures FileSync(c, FileStep(c, content, op).1, RefStep(h, op).1)
  {
    hide ParseAll, Complete, Tail, IndexMore, Retained, EncodeAll, PruneAll, ValidEntry, RemovedCount;
    match op {
      case Commit(e) =>
        IndexAnswers(Retained(h), e);
        RetainedKeepsAnswers(h, e);
        if ValidEntry(e) && !Conflicts(h, e) {
          AppendEntry(c, content, e);
          RetainedSnoc(h, e);
        }
      case Compact(before) =>
        var es := Retained(h);
        CompactRetained(h, before);
        if PruneAll(es, before) == es {
          NoOpCompaction(h, before);
        } else {
          assert forall i :: 0 <= i < |es| ==> ValidEntry(es[i]);
          CompactedIsValid(es, before);
          RewriteRoundTrip(c, Compacted(es, before));
        }
      case Restart =>
    }
  }

  // ---- In-memory store: refines it while horizons do not decrease --------

  function EntryMap(h: seq<Entry>): map<EntryKey, Entry> {
    if h == [] then map[]
    else
      var last := h[|h| - 1];
      if Dead(last) then EntryMap(h[..|h| - 1]) else EntryMap(h[..|h| - 1])[KeyOf(last) := Plain(last)]
  }

  function Plain(e: Entry): Entry { e.(noncePruned := false, transferPruned := false) }

  // No key pair is held twice, and a pruned key's own time is before the last horizon.
  ghost predicate Tidy(h: seq<Entry>, horizon: Option<int>) {
    && (forall i, j :: 0 <= i < j < |h| && !Dead(h[i]) ==> KeyOf(h[i]) != KeyOf(h[j]))
    && (forall i :: 0 <= i < |h| ==> PrunedBefore(h[i], horizon))
  }

  predicate PrunedBefore(x: Entry, horizon: Option<int>) {
    && (x.noncePruned ==> horizon.Some? && x.timestamp < horizon.value)
    && (x.transferPruned ==> horizon.Some? && x.transferTimestamp < horizon.value)
  }

  function NonceKeys(h: seq<Entry>): set<NonceKey> {
    set i | 0 <= i < |h| && !h[i].noncePruned :: h[i].nonceKey
  }

  function TransferKeys(h: seq<Entry>): set<TransferKey> {
    set i | 0 <= i < |h| && !h[i].transferPruned :: h[i].transferKey
  }

  ghost predicate MemSync(m: MemView, h: seq<Entry>, horizon: Option<int>) {
    && Tidy(h, horizon)
    && m.entries == EntryMap(h)
    && m.nonces == NonceKeys(h)
    && m.transfers == TransferKeys(h)
  }

  lemma {:induction false} EntryMapHolds(h: seq<Entry>, horizon: Option<int>, k: EntryKey)
    requires Tidy(h, horizon)
    ensures k in EntryMap(h) <==> exists i :: 0 <= i < |h| && !Dead(h[i]) && KeyOf(h[i]) == k
    ensures forall i :: 0 <= i < |h| && !Dead(h[i]) && KeyOf(h[i]) == k ==> EntryMap(h)[k] == Plain(h[i])
  {
    if h != [] {
      var init, last := h[..|h| - 1], h[|h| - 1];
      TidyPrefix(init, last, horizon);
      EntryMapHolds(init, horizon, k);
      assert forall i :: 0 <= i < |init| ==> h[i] == init[i];
      assert h[|h| - 1] == last;
    }
  }

  lemma TidyPrefix(init: seq<Entry>, last: Entry, horizon: Option<int>)
    requires Tidy(init + [last], horizon)
    ensures Tidy(init, horizon)
    ensures forall i :: 0 <= i < |init| && !Dead(init[i]) ==> KeyOf(init[i]) != KeyOf(last)
    ensures PrunedBefore(last, horizon)
  {
    var h := init + [last];
    assert forall i :: 0 <= i < |init| ==> h[i] == init[i];
    assert h[|init|] == last;
  }

  lemma MemCommitRefines(m: MemView, h: seq<Entry>, horizon: Option<int>, e: Entry)
    requires MemSync(m, h, horizon) && Unpruned(e)
    ensures MemStep(m, Commit(e)).0 == RefStep(h, Commit(e)).0
    ensures MemSync(MemStep(m, Commit(e)).1, RefStep(h, Commit(e)).1, horizon)
  {
    hide ValidEntry, EntryMap;
    assert e.nonceKey in m.nonces || e.transferKey in m.transfers <==> Conflicts(h, e);
    if ValidEntry(e) && !Conflicts(h, e) {
      var h' := h + [e];
      assert forall i :: 0 <= i < |h| ==> h'[i] == h[i];
      assert h'[|h|] == e;
      assert Tidy(h', horizon) by {
        forall i | 0 <= i < |h| && !Dead(h[i]) ensures KeyOf(h[i]) != KeyOf(e) {
          assert !Clash(h[i], e);
        }
      }
      EntryMapSnoc(h, e);
    }
  }

  lemma EntryMapSnoc(h: seq<Entry>, e: Entry)
    ensures EntryMap(h + [e]) == if Dead(e) then EntryMap(h) else EntryMap(h)[KeyOf(e) := Plain(e)]
  {
    assert (h + [e])[..|h|] == h;
  }

  // What compaction does to one entry, once pruned keys are behind the horizon.
  lemma PruneIsExpiry(x: Entry, horizon: Option<int>, before: int)
    requires PrunedBefore(x, horizon) && (horizon.Some? ==> horizon.value <= before) && !Dead(x)
    ensures Dead(Prune(x, before)) <==> Expired(Plain(x), before)
    ensures !Prune(x, before).noncePruned <==> x.timestamp >= before
    ensures !Prune(x, before).transferPruned <==> x.transferTimestamp >= before
    ensures KeyOf(Prune(x, before)) == KeyOf(x) && Plain(Prune(x, before)) == Plain(x)
  {
  }

  lemma TidyAfter(h: seq<Entry>, horizon: Option<int>, before: int)
    requires Tidy(h, horizon) && (horizon.Some? ==> horizon.value <= before)
    ensures Tidy(PruneAll(h, before), Some(before))
  {
  }

  // The kept entries and the number removed.
  lemma {:induction false} CompactedEntries(h: seq<Entry>, horizon: Option<int>, before: int)
    requires Tidy(h, horizon) && (horizon.Some? ==> horizon.value <= before)
    ensures EntryMap(PruneAll(h, before)) == KeptEntries(EntryMap(h), before)
    ensures RemovedCount(h, before) == |ExpiredKeys(EntryMap(h), before)|
  {
    hide PruneAll, Expired, Plain, KeptEntries, ExpiredKeys, Tidy;
    if h == [] {
      EmptyEntries(before);
      assert h == [];
    } else {
      var init, last := h[..|h| - 1], h[|h| - 1];
      assert h == init + [last];
      TidyPrefix(init, last, horizon);
      CompactedEntries(init, horizon, before);
      PruneAllSnoc(init, last, before);
      EntryMapSnoc(init, last);
      EntryMapSnoc(PruneAll(init, before), Prune(last, before));
      if !Dead(last) {
        EntryMapHolds(init, horizon, KeyOf(last));
        PruneIsExpiry(last, horizon, before);
        ExpireOneMore(EntryMap(init), KeyOf(last), Plain(last), before);
      }
    }
  }

  lemma ExpireOneMore(m: map<EntryKey, Entry>, k: EntryKey, e: Entry, before: int)
    requires k !in m
    ensures KeptEntries(m[k := e], before) ==
            if Expired(e, before) then KeptEntries(m, before) else KeptEntries(m, before)[k := e]
    ensures |ExpiredKeys(m[k := e], before)| == |ExpiredKeys(m, before)| + (if Expired(e, before) then 1 else 0)
  {
    var was := ExpiredKeys(m, before);
    assert ExpiredKeys(m[k := e], before) == if Expired(e, before) then was + {k} else was;
  }

  lemma EmptyEntries(before: int)
    ensures EntryMap([]) == map[] && PruneAll([], before) == [] && RemovedCount([], before) == 0
    ensures KeptEntries(map[], before) == map[] && ExpiredKeys(map[], before) == {}
  {
  }

  // A kept entry that survives the horizon is found under its key pair, and
  // every entry found there comes from one.
  lemma CompactedNonces(h: seq<Entry>, horizon: Option<int>, before: int)
    requires Tidy(h, horizon) && (horizon.Some? ==> horizon.value <= before)
    ensures NoncesFrom(EntryMap(h), before) == NonceKeys(PruneAll(h, before))
  {
    hide EntryMap, Tidy;
    var h' := PruneAll(h, before);
    forall n | n in NoncesFrom(EntryMap(h), before) ensures n in NonceKeys(h') {
      var k :| k in EntryMap(h) && EntryMap(h)[k].timestamp >= before && k.0 == n;
      var i := Origin(h, horizon, before, k);
      assert !h'[i].noncePruned && h'[i].nonceKey == n;
    }
    forall n | n in NonceKeys(h') ensures n in NoncesFrom(EntryMap(h), before) {
      var i :| 0 <= i < |h'| && !h'[i].noncePruned && h'[i].nonceKey == n;
      Destination(h, horizon, before, i);
    }
  }

  lemma CompactedTransfers(h: seq<Entry>, horizon: Option<int>, before: int)
    requires Tidy(h, horizon) && (horizon.Some? ==> horizon.value <= before)
    ensures TransfersFrom(EntryMap(h), before) == TransferKeys(PruneAll(h, before))
  {
    hide EntryMap, Tidy;
    var h' := PruneAll(h, before);
    forall t | t in TransfersFrom(EntryMap(h), before) ensures t in TransferKeys(h') {
      var k :| k in EntryMap(h) && EntryMap(h)[k].transferTimestamp >= before && k.1 == t;
      var i := Origin(h, horizon, before, k);
      assert !h'[i].transferPruned && h'[i].transferKey == t;
    }
    forall t | t in TransferKeys(h') ensures t in TransfersFrom(EntryMap(h), before) {
      var i :| 0 <= i < |h'| && !h'[i].transferPruned && h'[i].transferKey == t;
      Destination(h, horizon, before, i);
    }
  }

  lemma Origin(h: seq<Entry>, horizon: Option<int>, before: int, k: EntryKey) returns (i: nat)
    requires Tidy(h, horizon) && (horizon.Some? ==> horizon.value <= before) && k in EntryMap(h)
    ensures i < |h| && KeyOf(h[i]) == k && EntryMap(h)[k] == Plain(h[i])
    ensures !Prune(h[i], before).noncePruned <==> EntryMap(h)[k].timestamp >= before
    ensures !Prune(h[i], before).transferPruned <==> EntryMap(h)[k].transferTimestamp >= before
  {
    hide EntryMap;
    EntryMapHolds(h, horizon, k);
    i :| 0 <= i < |h| && !Dead(h[i]) && KeyOf(h[i]) == k;
    PruneIsExpiry(h[i], horizon, before);
  }

  lemma Destination(h: seq<Entry>, horizon: Option<int>, before: int, i: nat)
    requires Tidy(h, horizon) && (horizon.Some? ==> horizon.value <= before)
    requires i < |h| && !Dead(Prune(h[i], before))
    ensures KeyOf(h[i]) in EntryMap(h) && EntryMap(h)[KeyOf(h[i])] == Plain(h[i])
    ensures !Prune(h[i], before).noncePruned <==> h[i].timestamp >= before
    ensures !Prune(h[i], before).transferPruned <==> h[i].transferTimestamp >= before
  {
    hide EntryMap;
    EntryMapHolds(h, horizon, KeyOf(h[i]));
    PruneIsExpiry(h[i], horizon, before);
  }

  lemma MemCompactRefines(m: MemView, h: seq<Entry>, horizon: Option<int>, before: int)
    requires MemSync(m, h, horizon) && (horizon.Some? ==> horizon.value <= before)
    ensures MemStep(m, Compact(before)).0 == RefStep(h, Compact(before)).0
    ensures MemSync(MemStep(m, Compact(before)).1, RefStep(h, Compact(before)).1, Some(before))
  {
    hide EntryMap, PruneAll, RemovedCount, KeptEntries, ExpiredKeys, Tidy, NonceKeys, TransferKeys, NoncesFrom, TransfersFrom;
    CompactedEntries(h, horizon, before);
    CompactedNonces(h, horizon, before);
    CompactedTransfers(h, horizon, before);
    TidyAfter(h, horizon, before);
  }

  // ---- Whole sequences ---------------------------------------------------

  function FileRun(c: Codec, ops: seq<Op>): (seq<Answer>, Bytes) {
    if ops == [] then ([], [])
    else
      var (answers, content) := FileRun(c, ops[..|ops| - 1]);
      var (a, content') := FileStep(c, content, ops[|ops| - 1]);
      (answers + [a], content')
  }

  function MemRun(ops: seq<Op>): (seq<Answer>, MemView) {
    if ops == [] then ([], MemView({}, {}, map[]))
    else
      var (answers, m) := MemRun(ops[..|ops| - 1]);
      var (a, m') := MemStep(m, ops[|ops| - 1]);
      (answers + [a], m')
  }

  function RefRun(ops: seq<Op>): (seq<Answer>, seq<Entry>) {
    if ops == [] then ([], [])
    else
      var (answers, h) := RefRun(ops[..|ops| - 1]);
      var (a, h') := RefStep(h, ops[|ops| - 1]);
      (answers + [a], h')
  }

  ghost predicate UnprunedCommits(ops: seq<Op>) {
    forall i :: 0 <= i < |ops| && ops[i].Commit? ==> Unpruned(ops[i].entry)
  }

  ghost predicate NondecreasingHorizons(ops: seq<Op>) {
    forall i, j :: 0 <= i < j < |ops| && ops[i].Compact? && ops[j].Compact? ==> ops[i].before <= ops[j].before
  }

  // The file store, restarts included, answers every sequence as the replay set does.
  lemma {:induction false} FileRefinesReplaySet(c: Codec, ops: seq<Op>)
    requires Good(c) && UnprunedCommits(ops)
    ensures FileRun(c, ops).0 == RefRun(ops).0
    ensures FileSync(c, FileRun(c, ops).1, RefRun(ops).1)
  {
    hide FileStep, RefStep, FileSync;
    if ops == [] {
      assert FileSync(c, [], []) by { EmptySync(c); }
    } else {
      FileRefinesReplaySet(c, ops[..|ops| - 1]);
      FileStepRefines(c, FileRun(c, ops[..|ops| - 1]).1, RefRun(ops[..|ops| - 1]).1, ops[|ops| - 1]);
    }
  }

  lemma EmptySync(c: Codec)
    ensures FileSync(c, [], [])
  {
  }

  ghost predicate LastHorizon(ops: seq<Op>, horizon: Option<int>) {
    && (horizon.Some? ==> exists i :: 0 <= i < |ops| && ops[i] == Compact(horizon.value))
  }

  lemma {:induction false} MemRefinesReplaySet(ops: seq<Op>) returns (horizon: Option<int>)
    requires UnprunedCommits(ops) && NondecreasingHorizons(ops)
    ensures MemRun(ops).0 == RefRun(ops).0
    ensures MemSync(MemRun(ops).1, RefRun(ops).1, horizon) && LastHorizon(ops, horizon)
  {
    hide MemStep, RefStep, MemSync;
    if ops == [] {
      horizon := None;
      assert MemSync(MemView({}, {}, map[]), [], None) by { EmptyMemSync(); }
    } else {
      var init, op := ops[..|ops| - 1], ops[|ops| - 1];
      var before := MemRefinesReplaySet(init);
      var m, h := MemRun(init).1, RefRun(init).1;
      match op {
        case Commit(e) => MemCommitRefines(m, h, before, e); horizon := before;
        case Compact(b) => MemCompactRefines(m, h, before, b); horizon := Some(b);
        case Restart => RestartIsSilent(m, h); horizon := before;
      }
    }
  }

  lemma RestartIsSilent(m: MemView, h: seq<Entry>)
    ensures MemStep(m, Restart) == (Restarted, m) && RefStep(h, Restart) == (Restarted, h)
  {
  }

  lemma EmptyMemSync()
    ensures MemSync(MemView({}, {}, map[]), [], None)
  {
  }

  // So the two stores agree, answer by answer and count by count.
  lemma StoresAgree(c: Codec, ops: seq<Op>)
    requires Good(c) && UnprunedCommits(ops) && NondecreasingHorizons(ops)
    ensures FileRun(c, ops).0 == MemRun(ops).0
  {
    FileRefinesReplaySet(c, ops);
    var _ := MemRefinesReplaySet(ops);
  }

  // ---- Every answer, from the answers before it --------------------------

  // The accepted commits and the compactions, in order.
  function LogOf(ops: seq<Op>, answers: seq<Answer>): seq<Event>
    requires |ops| == |answers|
  {
    if ops == [] then []
    else
      var n := |ops| - 1;
      var before := LogOf(ops[..n], answers[..n]);
      if ops[n].Compact? then before + [Pruned(ops[n].before)]
      else if ops[n].Commit? && answers[n] == Result(Committed) then before + [Wrote(ops[n].entry, 0)]
      else before
  }

  lemma {:induction false} RefHistory(ops: seq<Op>)
    requires UnprunedCommits(ops)
    ensures |RefRun(ops).0| == |ops|
    ensures RefRun(ops).1 == Replay(LogOf(ops, RefRun(ops).0))
    ensures forall j :: 0 <= j < |LogOf(ops, RefRun(ops).0)| && LogOf(ops, RefRun(ops).0)[j].Wrote? ==>
              Unpruned(LogOf(ops, RefRun(ops).0)[j].entry)
  {
    hide Conflicts, ValidEntry, PruneAll, RemovedCount;
    if ops != [] {
      var n := |ops| - 1;
      RefHistory(ops[..n]);
      var answers, before := RefRun(ops).0, LogOf(ops[..n], RefRun(ops[..n]).0);
      assert answers[..n] == RefRun(ops[..n]).0;
      if ops[n].Compact? {
        ReplaySnoc(before, Pruned(ops[n].before));
      } else if ops[n].Commit? {
        ReplaySnoc(before, Wrote(ops[n].entry, 0));
      }
    }
  }

  // Some accepted commit of one of e's keys has survived every compaction since.
  ghost predicate Standing(log: seq<Event>, e: Entry) {
    exists i :: 0 <= i < |log| && StandsAt(log, i, e)
  }

  ghost predicate StandsAt(log: seq<Event>, i: nat, e: Entry)
    requires i < |log|
  {
    && log[i].Wrote?
    && (|| (log[i].entry.nonceKey == e.nonceKey
            && forall k :: i < k < |log| && log[k].Pruned? ==> log[k].before <= log[i].entry.timestamp)
        || (log[i].entry.transferKey == e.transferKey
            && forall k :: i < k < |log| && log[k].Pruned? ==> log[k].before <= log[i].entry.transferTimestamp))
  }

  // After any sequence of operations both stores commit exactly the valid entries
  // that are new: no accepted commit of either key still stands.
  lemma NewEntriesAreCommitted(c: Codec, ops: seq<Op>, e: Entry)
    requires Good(c) && UnprunedCommits(ops) && Unpruned(e)
    ensures |FileRun(c, ops).0| == |ops|
    ensures FileStep(c, FileRun(c, ops).1, Commit(e)).0 == Result(
              if !ValidEntry(e) then Malformed
              else if Standing(LogOf(ops, FileRun(c, ops).0), e) then ReplayConflict else Committed)
    ensures NondecreasingHorizons(ops) ==> |MemRun(ops).0| == |ops|
    ensures NondecreasingHorizons(ops) ==>
              MemStep(MemRun(ops).1, Commit(e)).0 == FileStep(c, FileRun(c, ops).1, Commit(e)).0
  {
    hide ValidEntry, FileStep, MemStep, FileSync, MemSync, Conflicts, LogOf;
    FileRefinesReplaySet(c, ops);
    RefHistory(ops);
    var log := LogOf(ops, RefRun(ops).0);
    FileStepRefines(c, FileRun(c, ops).1, RefRun(ops).1, Commit(e));
    ConflictsCharacterised(log, e);
    StandingMeansBlocked(log, e);
    if NondecreasingHorizons(ops) {
      var horizon := MemRefinesReplaySet(ops);
      MemCommitRefines(MemRun(ops).1, RefRun(ops).1, horizon, e);
    }
  }

  lemma StandingMeansBlocked(log: seq<Event>, e: Entry)
    ensures Standing(log, e) <==> exists i :: 0 <= i < |log| && log[i].Wrote? && Blocks(log, i, e)
  {
    assert forall i :: 0 <= i < |log| && log[i].Wrote? ==> (Blocks(log, i, e) <==> StandsAt(log, i, e));
  }

  // The number a compaction reports is how many entries lose their last key.
  lemma RemovedIsWhatIsLost(c: Codec, ops: seq<Op>, before: int)
    requires Good(c) && UnprunedCommits(ops)
    ensures var content := FileRun(c, ops).1;
            var (answer, after) := FileStep(c, content, Compact(before));
            && FileEntries(c, content).Some? && FileEntries(c, after).Some?
            && answer.Removed? && |FileEntries(c, content).value| == |FileEntries(c, after).value| + answer.n
  {
    hide ValidEntry, FileStep, Retained, PruneAll, RemovedCount, ParseAll, Complete, Tail;
    FileRefinesReplaySet(c, ops);
    var h := RefRun(ops).1;
    FileStepRefines(c, FileRun(c, ops).1, h, Compact(before));
    CompactRetained(h, before);
  }

  // With a decreasing horizon they need not: the in-memory store brings back a
  // nonce that the first compaction had forgotten, the file store does not.
  lemma DecreasingHorizonSplitsStores(c: Codec, a: Entry, b: Entry, high: int, low: int)
    requires Good(c) && ValidEntry(a) && Unpruned(a) && ValidEntry(b) && Unpruned(b)
    requires a.nonceKey == b.nonceKey && a.transferKey != b.transferKey
    requires low <= a.timestamp < high <= a.transferTimestamp
    ensures var m := MemStep(MemStep(MemStep(MemView({}, {}, map[]), Commit(a)).1, Compact(high)).1, Compact(low)).1;
            var f := FileStep(c, FileStep(c, FileStep(c, [], Commit(a)).1, Compact(high)).1, Compact(low)).1;
            MemStep(m, Commit(b)).0 == Result(ReplayConflict) && FileStep(c, f, Commit(b)).0 == Result(Committed)
  {
    hide ValidEntry, FileStep, MemStep;
    ForgottenNonce(c, a, b, high, low);
    ResurrectedNonce(a, high, low);
    SeenNonceConflicts(MemStep(MemStep(MemStep(MemView({}, {}, map[]), Commit(a)).1, Compact(high)).1, Compact(low)).1, b);
  }

  lemma SeenNonceConflicts(m: MemView, b: Entry)
    requires ValidEntry(b) && b.nonceKey in m.nonces
    ensures MemStep(m, Commit(b)).0 == Result(ReplayConflict)
  {
  }

  lemma ForgottenNonce(c: Codec, a: Entry, b: Entry, high: int, low: int)
    requires Good(c) && ValidEntry(a) && Unpruned(a) && ValidEntry(b) && Unpruned(b)
    requires a.nonceKey == b.nonceKey && a.transferKey != b.transferKey
    requires low <= a.timestamp < high <= a.transferTimestamp
    ensures var f := FileStep(c, FileStep(c, FileStep(c, [], Commit(a)).1, Compact(high)).1, Compact(low)).1;
            FileStep(c, f, Commit(b)).0 == Result(Committed)
  {
    hide ValidEntry, FileStep, FileSync, Good, PruneAll, Conflicts, RemovedCount;
    var a1 := Prune(a, high);
    OneEntryHistory(a, b, high, low);
    EmptySync(c);
    FileStepRefines(c, [], [], Commit(a));
    var f1 := FileStep(c, [], Commit(a)).1;
    FileStepRefines(c, f1, [a], Compact(high));
    var f2 := FileStep(c, f1, Compact(high)).1;
    FileStepRefines(c, f2, [a1], Compact(low));
    FileStepRefines(c, FileStep(c, f2, Compact(low)).1, [a1], Commit(b));
  }

  lemma OneEntryHistory(a: Entry, b: Entry, high: int, low: int)
    requires Unpruned(a) && a.transferKey != b.transferKey && low <= a.timestamp < high <= a.transferTimestamp
    ensures var a1 := Prune(a, high);
            && [] + [a] == [a] && !Conflicts([], a) && PruneAll([a], high) == [a1] && PruneAll([a1], low) == [a1]
            && !Conflicts([a1], b)
  {
    hide PruneAll;
    var a1 := Prune(a, high);
    var r1, r2 := PruneAll([a], high), PruneAll([a1], low);
    assert r1[0] == a1 && r2[0] == Prune(a1, low) == a1;
    assert !Clash(a1, b);
  }

  lemma ResurrectedNonce(a: Entry, high: int, low: int)
    requires ValidEntry(a) && low <= a.timestamp && high <= a.transferTimestamp
    ensures var m := MemStep(MemStep(MemStep(MemView({}, {}, map[]), Commit(a)).1, Compact(high)).1, Compact(low)).1;
            a.nonceKey in m.nonces
  {
    hide ValidEntry;
    var m1 := MemStep(MemView({}, {}, map[]), Commit(a)).1;
    assert m1.entries == map[KeyOf(a) := a];
    var m2 := MemStep(m1, Compact(high)).1;
    assert KeyOf(a) in m2.entries && m2.entries[KeyOf(a)] == a;
    assert KeyOf(a).0 in MemStep(m2, Compact(low)).1.nonces;
  }
}
