// What a whole history of accepted writes and applied compactions means for
// the next decision, and the retention theorem that follows.
module ReplayHistory {
  import opened ReplaySet

  // Wrote: a commit took effect; cutoff is the Now - MaxAge of the verification
  // behind it.  Pruned: a compaction with this horizon took effect.
  datatype Event = Wrote(entry: Entry, cutoff: int) | Pruned(before: int)

  function Apply(h: seq<Entry>, ev: Event): seq<Entry> {
    if ev.Wrote? then h + [ev.entry] else PruneAll(h, ev.before)
  }

  function Replay(log: seq<Event>): seq<Entry> {
    if log == [] then [] else Apply(Replay(log[..|log| - 1]), log[|log| - 1])
  }

  lemma ReplaySnoc(log: seq<Event>, ev: Event)
    ensures Replay(log + [ev]) == Apply(Replay(log), ev)
  {
    assert (log + [ev])[..|log|] == log;
  }

  // Every write was decided against the history before it.
  ghost predicate Admissible(log: seq<Event>) {
    forall j :: 0 <= j < |log| && log[j].Wrote? ==>
      Unpruned(log[j].entry) && !Conflicts(Replay(log[..j]), log[j].entry)
  }

  ghost predicate NonceKept(log: seq<Event>, i: nat)
    requires i < |log| && log[i].Wrote?
  {
    forall k :: i < k < |log| && log[k].Pruned? ==> log[k].before <= log[i].entry.timestamp
  }

  ghost predicate TransferKept(log: seq<Event>, i: nat)
    requires i < |log| && log[i].Wrote?
  {
    forall k :: i < k < |log| && log[k].Pruned? ==> log[k].before <= log[i].entry.transferTimestamp
  }

  // Entry e's nonce (transfer) key was written by event i and no later horizon passed it.
  ghost predicate Blocks(log: seq<Event>, i: nat, e: Entry)
    requires i < |log| && log[i].Wrote?
  {
    || (log[i].entry.nonceKey == e.nonceKey && NonceKept(log, i))
    || (log[i].entry.transferKey == e.transferKey && TransferKept(log, i))
  }

  lemma AdmissiblePrefix(log: seq<Event>, n: nat)
    requires Admissible(log) && n <= |log|
    ensures Admissible(log[..n])
  {
    forall j | 0 <= j < n && log[..n][j].Wrote?
      ensures Unpruned(log[j].entry) && !Conflicts(Replay(log[..n][..j]), log[j].entry)
    {
      assert log[..n][..j] == log[..j];
    }
  }

  // The replay set rejects an entry exactly when some earlier write of one of
  // its keys has survived every compaction since.
  lemma ConflictsCharacterised(log: seq<Event>, e: Entry)
    requires forall j :: 0 <= j < |log| && log[j].Wrote? ==> Unpruned(log[j].entry)
    ensures Conflicts(Replay(log), e) <==> exists i :: 0 <= i < |log| && log[i].Wrote? && Blocks(log, i, e)
  {
    if Conflicts(Replay(log), e) {
      var r :| 0 <= r < |Replay(log)| && Clash(Replay(log)[r], e);
      var i := WriteBehind(log, r);
      assert Blocks(log, i, e);
    }
    if exists i :: 0 <= i < |log| && log[i].Wrote? && Blocks(log, i, e) {
      var i :| 0 <= i < |log| && log[i].Wrote? && Blocks(log, i, e);
      var r := EntryOf(log, i);
      assert Clash(Replay(log)[r], e);
    }
  }

  // x is what has become of the entry that event i wrote: the same keys and
  // times, and exactly the pruned flags the horizons since then earned.
  ghost predicate Fate(log: seq<Event>, i: nat, x: Entry) {
    && i < |log| && log[i].Wrote?
    && x == log[i].entry.(noncePruned := x.noncePruned, transferPruned := x.transferPruned)
    && (!x.noncePruned <==> NonceKept(log, i))
    && (!x.transferPruned <==> TransferKept(log, i))
  }

  lemma FateStep(log: seq<Event>, ev: Event, i: nat, x: Entry)
    requires Fate(log, i, x)
    ensures Fate(log + [ev], i, if ev.Pruned? then Prune(x, ev.before) else x)
  {
    var after := log + [ev];
    assert forall k :: 0 <= k < |log| ==> after[k] == log[k];
    assert after[|log|] == ev;
    assert NonceKept(after, i) <==>
           NonceKept(log, i) && (ev.Pruned? ==> ev.before <= x.timestamp);
    assert TransferKept(after, i) <==>
           TransferKept(log, i) && (ev.Pruned? ==> ev.before <= x.transferTimestamp);
  }

  // Every entry of the replay set is the fate of some write ...
  lemma {:induction false} WriteBehind(log: seq<Event>, r: nat) returns (i: nat)
    requires forall j :: 0 <= j < |log| && log[j].Wrote? ==> Unpruned(log[j].entry)
    requires r < |Replay(log)|
    ensures Fate(log, i, Replay(log)[r])
  {
    var init, last := log[..|log| - 1], log[|log| - 1];
    assert log == init + [last];
    if r < |Replay(init)| {
      i := WriteBehind(init, r);
      FateStep(init, last, i, Replay(init)[r]);
    } else {
      i := |log| - 1;
      assert Replay(log)[r] == last.entry;
    }
  }

  // ... and every write has its entry in the replay set.
  lemma {:induction false} EntryOf(log: seq<Event>, i: nat) returns (r: nat)
    requires forall j :: 0 <= j < |log| && log[j].Wrote? ==> Unpruned(log[j].entry)
    requires i < |log| && log[i].Wrote?
    ensures r < |Replay(log)| && Fate(log, i, Replay(log)[r])
  {
    var init, last := log[..|log| - 1], log[|log| - 1];
    assert log == init + [last];
    if i < |init| {
      r := EntryOf(init, i);
      FateStep(init, last, i, Replay(init)[r]);
    } else {
      r := |Replay(init)|;
      assert Replay(log)[r] == last.entry;
    }
  }

  // The caller's contract: each applied horizon is at most the freshness cutoff
  // of every verification that commits after it.
  ghost predicate HorizonContract(log: seq<Event>) {
    forall k, j :: 0 <= k < j < |log| && log[k].Pruned? && log[j].Wrote? ==> log[k].before <= log[j].cutoff
  }

  // The verifier commits only entries whose two times are inside its window.
  ghost predicate FreshWrites(log: seq<Event>) {
    forall j :: 0 <= j < |log| && log[j].Wrote? ==>
      log[j].cutoff <= log[j].entry.timestamp && log[j].cutoff <= log[j].entry.transferTimestamp
  }

  // A forgotten key can come back only under a strictly newer signed time.
  lemma ReuseNeedsNewerTime(log: seq<Event>, i: nat, j: nat)
    requires Admissible(log) && HorizonContract(log) && FreshWrites(log)
    requires i < j < |log| && log[i].Wrote? && log[j].Wrote?
    ensures log[i].entry.nonceKey == log[j].entry.nonceKey ==>
              log[i].entry.timestamp < log[j].entry.timestamp
    ensures log[i].entry.transferKey == log[j].entry.transferKey ==>
              log[i].entry.transferTimestamp < log[j].entry.transferTimestamp
  {
    var past := log[..j];
    AdmissiblePrefix(log, j);
    ConflictsCharacterised(past, log[j].entry);
    assert past[i] == log[i];
    assert !Blocks(past, i, log[j].entry);
    assert forall k :: i < k < j && past[k].Pruned? ==> past[k].before <= log[j].cutoff;
  }
}
