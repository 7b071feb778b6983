// What the step system guarantees in every reachable state.
module SharedStoreTheorems {
  import opened Optional
  import opened Lines
  import opened ReplaySet
  import opened ReplayLog
  import opened ReplayHistory
  import opened SharedStore

  // The entries a reader of the store path sees now.
  function CurrentEntries(c: Codec, s: State): Option<seq<Entry>> {
    if s.path.Some? && s.path.value < |s.inodes| then FileEntries(c, s.inodes[s.path.value]) else None
  }

  // A commit takes effect only on the file the path names, only when that file
  // is whole and retains neither of the entry's keys, and adds just that entry.
  lemma CommitOnlyIfNew(c: Codec, mayCompact: set<Pid>, turns: seq<Turn>, p: Pid, bytes: nat)
    requires Good(c) && AtMostOne(mayCompact)
    requires Get(Run(c, mayCompact, turns), p).phase.CommitIndexed?
    ensures var s := Run(c, mayCompact, turns);
            var e := Get(s, p).phase.entry;
            var t := Step(c, mayCompact, s, p, Write(bytes));
            && s.path == Some(Get(s, p).h.ino) && CurrentEntries(c, s).Some?
            && !Conflicts(CurrentEntries(c, s).value, e)
            && (bytes >= |LineOf(c, e)| ==> CurrentEntries(c, t) == Some(CurrentEntries(c, s).value + [e]))
            && (0 < bytes < |LineOf(c, e)| ==> CurrentEntries(c, t) == None && t.acks == s.acks && t.log == s.log)
  {
    hide Run, Inv, ParseAll, Complete, Tail, Replay, Retained, ValidEntry, IndexMore;
    RunKeepsInv(c, mayCompact, turns);
    var s := Run(c, mayCompact, turns);
    InvAt(c, mayCompact, s, p);
    AboutToWrite(c, mayCompact, s, p);
    var Proc(ph, h) := Get(s, p);
    AppendEntry(c, s.inodes[h.ino], ph.entry);
    if bytes < |LineOf(c, ph.entry)| {
      AppendTorn(c, s.inodes[h.ino], ph.entry, bytes);
    }
  }

  // Once the inode is checked the answer is exact: the commit is refused as a
  // replay exactly when an earlier write of one of its keys has survived every
  // applied compaction, and fails closed exactly when the file is torn.
  lemma AnswerIsExact(c: Codec, mayCompact: set<Pid>, turns: seq<Turn>, p: Pid)
    requires Good(c) && AtMostOne(mayCompact)
    requires Get(Run(c, mayCompact, turns), p).phase.CommitChecked?
    ensures var s := Run(c, mayCompact, turns);
            var e := Get(s, p).phase.entry;
            var after := Get(Step(c, mayCompact, s, p, Reindex), p);
            var seen := exists i :: 0 <= i < |s.log| && s.log[i].Wrote? && Blocks(s.log, i, e);
            && (CurrentEntries(c, s).None? <==> after.phase.Idle? && !after.h.healthy)
            && (CurrentEntries(c, s).Some? && seen <==> after.phase.Idle? && after.h.healthy)
            && (CurrentEntries(c, s).Some? && !seen <==> after.phase.CommitIndexed?)
  {
    hide Run, Inv, ParseAll, Complete, Tail, Replay, Retained, ValidEntry, IndexMore, Blocks, Reread;
    RunKeepsInv(c, mayCompact, turns);
    var s := Run(c, mayCompact, turns);
    InvAt(c, mayCompact, s, p);
    var Proc(ph, h) := Get(s, p);
    RereadCatchesUp(c, s.inodes, h);
    RetainedKeepsAnswers(Replay(s.log), ph.entry);
    IndexAnswers(Retained(Replay(s.log)), ph.entry);
    AllUnpruned(s.log);
    ConflictsCharacterised(s.log, ph.entry);
  }

  lemma AllUnpruned(log: seq<Event>)
    requires Admissible(log)
    ensures forall j :: 0 <= j < |log| && log[j].Wrote? ==> Unpruned(log[j].entry)
  {
  }

  // A handle left on a replaced inode ends up unhealthy and changes no file.
  // So does a compactor once anything was committed to its new file before it
  // could lock it, although it compares only sizes.
  lemma StaleHandleFailsClosed(c: Codec, mayCompact: set<Pid>, turns: seq<Turn>, p: Pid)
    requires Good(c) && AtMostOne(mayCompact)
    ensures var s := Run(c, mayCompact, turns);
            var Proc(ph, h) := Get(s, p);
            var t := Step(c, mayCompact, s, p, if ph.CompactRelocked? then Swap else CheckInode);
            (|| ((ph.CommitLocked? || ph.CompactLocked?) && s.path != Some(h.ino))
             || (ph.CompactRelocked? && ph.since < |s.log|))
            ==> Get(t, p) == Proc(Idle, h.(healthy := false))
                && t.inodes == s.inodes && t.path == s.path && t.log == s.log && t.acks == s.acks
                && forall i :: !Owns(t, p, i)
  {
    hide Run, Inv, FileEntries;
    RunKeepsInv(c, mayCompact, turns);
    InvAt(c, mayCompact, Run(c, mayCompact, turns), p);
  }

  // An unhealthy handle stays unhealthy until the process opens the store again:
  // no step of its own touches the file system, the log or the acknowledgements.
  lemma UnhealthyStaysUnhealthy(c: Codec, mayCompact: set<Pid>, s: State, p: Pid, a: Action)
    requires Get(s, p).phase.Idle? && !Get(s, p).h.healthy
    ensures var t := Step(c, mayCompact, s, p, a);
            && (Get(t, p).phase.Closed? || (Get(t, p).phase.Idle? && !Get(t, p).h.healthy))
            && t.inodes == s.inodes && t.path == s.path && t.log == s.log && t.acks == s.acks
  {
  }

  // A compactor that does swap files has lost nothing: its rebuilt index is
  // exactly the index of the file now at the path.
  lemma SwapIsExact(c: Codec, mayCompact: set<Pid>, turns: seq<Turn>, p: Pid)
    requires Good(c) && AtMostOne(mayCompact)
    requires Get(Run(c, mayCompact, turns), p).phase.CompactRelocked?
    ensures var t := Step(c, mayCompact, Run(c, mayCompact, turns), p, Swap);
            var h := Get(t, p).h;
            h.healthy && Get(t, p).phase.Idle? && t.path == Some(h.ino) ==>
              && CurrentEntries(c, t) == Some(Retained(Replay(t.log)))
              && h.index == IndexOf(CurrentEntries(c, t).value)
              && h.offset == |t.inodes[h.ino]|
  {
    hide Run, Inv, ParseAll, Complete, Tail, Replay, Retained, IndexMore;
    RunKeepsInv(c, mayCompact, turns);
    var s := Run(c, mayCompact, turns);
    InvAt(c, mayCompact, s, p);
    var Proc(ph, h) := Get(s, p);
    if s.path == Some(ph.fd) && |s.inodes[ph.fd]| == ph.size {
      assert s.inodes[ph.fd][..ph.size] == s.inodes[ph.fd];
    }
  }

  // Reopening after any history, crashes included: the open fails exactly when
  // the file ends in a torn line; otherwise the rebuilt index holds exactly the
  // keys of the writes that no applied horizon has passed.
  lemma ReopenRecovers(c: Codec, mayCompact: set<Pid>, turns: seq<Turn>, p: Pid)
    requires Good(c) && AtMostOne(mayCompact)
    requires var s := Run(c, mayCompact, turns);
             Get(s, p).phase.OpenLocked? && s.path == Some(Get(s, p).h.ino)
    ensures var s := Run(c, mayCompact, turns);
            var t := Step(c, mayCompact, s, p, IndexOpen);
            var Proc(ph, h) := Get(t, p);
            && s.path.value < |s.inodes|
            && (Tail(s.inodes[s.path.value]) != [] <==> ph.Closed?)
            && (ph.Idle? ==> h.healthy && IndexIsExact(s.log, h.index))
            && (ph.Idle? || ph.Closed?)
  {
    hide Run, Inv, ParseAll, Complete, Tail, Replay, Retained, IndexMore, Reread, IndexIsExact;
    RunKeepsInv(c, mayCompact, turns);
    var s := Run(c, mayCompact, turns);
    InvAt(c, mayCompact, s, p);
    RereadCatchesUp(c, s.inodes, Get(s, p).h);
    IndexOfRetainedIsExact(s.log);
  }

  ghost predicate NonceWritten(log: seq<Event>, k: NonceKey) {
    exists i :: 0 <= i < |log| && log[i].Wrote? && log[i].entry.nonceKey == k && NonceKept(log, i)
  }

  ghost predicate TransferWritten(log: seq<Event>, k: TransferKey) {
    exists i :: 0 <= i < |log| && log[i].Wrote? && log[i].entry.transferKey == k && TransferKept(log, i)
  }

  ghost predicate IndexIsExact(log: seq<Event>, ix: Index) {
    && (forall k: NonceKey :: k in ix.nonces <==> NonceWritten(log, k))
    && (forall k: TransferKey :: k in ix.transfers <==> TransferWritten(log, k))
  }

  lemma IndexOfRetainedIsExact(log: seq<Event>)
    requires Admissible(log)
    ensures IndexIsExact(log, IndexOf(Retained(Replay(log))))
  {
    hide IndexMore, Retained, Replay, NonceWritten, TransferWritten, Admissible;
    AllUnpruned(log);
    forall k: NonceKey ensures k in IndexOf(Retained(Replay(log))).nonces <==> NonceWritten(log, k) {
      NonceIndexed(log, k);
    }
    forall k: TransferKey ensures k in IndexOf(Retained(Replay(log))).transfers <==> TransferWritten(log, k) {
      TransferIndexed(log, k);
    }
  }

  function Probe(n: NonceKey, t: TransferKey): Entry {
    Entry(n, t, "", 0, 0, false, false)
  }

  lemma NonceIndexed(log: seq<Event>, k: NonceKey)
    requires forall j :: 0 <= j < |log| && log[j].Wrote? ==> Unpruned(log[j].entry)
    ensures k in IndexOf(Retained(Replay(log))).nonces <==> NonceWritten(log, k)
  {
    hide IndexMore, Replay, Retained;
    var h := Replay(log);
    var e := Probe(k, TransferKey("", "", "", "", "", "", ""));
    IndexAnswers(Retained(h), e);
    if k in IndexOf(Retained(h)).nonces {
      var i :| 0 <= i < |Retained(h)| && !Retained(h)[i].noncePruned && Retained(h)[i].nonceKey == e.nonceKey;
      RetainedMembers(h, Retained(h)[i]);
      var r :| 0 <= r < |h| && h[r] == Retained(h)[i];
      var w := WriteBehind(log, r);
    }
    if NonceWritten(log, k) {
      var w :| 0 <= w < |log| && log[w].Wrote? && log[w].entry.nonceKey == k && NonceKept(log, w);
      var r := EntryOf(log, w);
      RetainedMembers(h, h[r]);
      var i :| 0 <= i < |Retained(h)| && Retained(h)[i] == h[r];
    }
  }

  lemma TransferIndexed(log: seq<Event>, k: TransferKey)
    requires forall j :: 0 <= j < |log| && log[j].Wrote? ==> Unpruned(log[j].entry)
    ensures k in IndexOf(Retained(Replay(log))).transfers <==> TransferWritten(log, k)
  {
    hide IndexMore, Replay, Retained;
    var h := Replay(log);
    var e := Probe(NonceKey("", "", "", ""), k);
    IndexAnswers(Retained(h), e);
    if k in IndexOf(Retained(h)).transfers {
      var i :| 0 <= i < |Retained(h)| && !Retained(h)[i].transferPruned && Retained(h)[i].transferKey == e.transferKey;
      RetainedMembers(h, Retained(h)[i]);
      var r :| 0 <= r < |h| && h[r] == Retained(h)[i];
      var w := WriteBehind(log, r);
    }
    if TransferWritten(log, k) {
      var w :| 0 <= w < |log| && log[w].Wrote? && log[w].entry.transferKey == k && TransferKept(log, w);
      var r := EntryOf(log, w);
      RetainedMembers(h, h[r]);
      var i :| 0 <= i < |Retained(h)| && Retained(h)[i] == h[r];
    }
  }
}
