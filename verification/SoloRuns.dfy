// Operations of one process that no other process disturbs: each goes through,
// and ends in the state stated.
module SoloRuns {
  import opened Optional
  import opened Lines
  import opened ReplaySet
  import opened ReplayLog
  import opened ReplayHistory
  import opened SharedStore

  // The turns of one process, from any state.
  function Steps(c: Codec, mayCompact: set<Pid>, s: State, p: Pid, acts: seq<Action>): State
    decreases |acts|
  {
    if acts == [] then s
    else Steps(c, mayCompact, Step(c, mayCompact, s, p, acts[0]), p, acts[1..])
  }

  function Turns(p: Pid, acts: seq<Action>): seq<Turn> {
    seq(|acts|, i requires 0 <= i < |acts| => Turn(p, acts[i]))
  }

  lemma {:induction false} RunOn(c: Codec, mayCompact: set<Pid>, turns: seq<Turn>, p: Pid, acts: seq<Action>)
    ensures Run(c, mayCompact, turns + Turns(p, acts)) == Steps(c, mayCompact, Run(c, mayCompact, turns), p, acts)
    decreases |acts|
  {
    hide Step;
    if acts == [] {
      assert turns + Turns(p, acts) == turns;
    } else {
      var first := turns + [Turn(p, acts[0])];
      assert first[..|first| - 1] == turns;
      RunOn(c, mayCompact, first, p, acts[1..]);
      assert turns + Turns(p, acts) == first + Turns(p, acts[1..]);
    }
  }

  lemma UnfoldSteps(c: Codec, mayCompact: set<Pid>, s: State, p: Pid, a: Action, acts: seq<Action>)
    ensures Steps(c, mayCompact, s, p, [a] + acts) == Steps(c, mayCompact, Step(c, mayCompact, s, p, a), p, acts)
  {
    assert ([a] + acts)[1..] == acts;
  }

  lemma ThreeSteps(c: Codec, mayCompact: set<Pid>, s: State, p: Pid, a1: Action, a2: Action, a3: Action)
    ensures var s1 := Step(c, mayCompact, s, p, a1);
            var s2 := Step(c, mayCompact, s1, p, a2);
            Steps(c, mayCompact, s, p, [a1, a2, a3]) == Step(c, mayCompact, s2, p, a3)
  {
    hide Step;
    var s1 := Step(c, mayCompact, s, p, a1);
    var s2 := Step(c, mayCompact, s1, p, a2);
    UnfoldSteps(c, mayCompact, s, p, a1, [a2, a3]);
    UnfoldSteps(c, mayCompact, s1, p, a2, [a3]);
    UnfoldSteps(c, mayCompact, s2, p, a3, []);
    assert [a1, a2, a3] == [a1] + [a2, a3] && [a2, a3] == [a2] + [a3] && [a3] == [a3] + [];
  }

  lemma FiveSteps(c: Codec, mayCompact: set<Pid>, s: State, p: Pid, a1: Action, a2: Action, a3: Action, a4: Action, a5: Action)
    ensures var s1 := Step(c, mayCompact, s, p, a1);
            var s2 := Step(c, mayCompact, s1, p, a2);
            Steps(c, mayCompact, s, p, [a1, a2, a3, a4, a5]) == Steps(c, mayCompact, s2, p, [a3, a4, a5])
  {
    hide Step;
    var s1 := Step(c, mayCompact, s, p, a1);
    UnfoldSteps(c, mayCompact, s, p, a1, [a2, a3, a4, a5]);
    UnfoldSteps(c, mayCompact, s1, p, a2, [a3, a4, a5]);
    assert [a1, a2, a3, a4, a5] == [a1] + [a2, a3, a4, a5] && [a2, a3, a4, a5] == [a2] + [a3, a4, a5];
  }

  predicate HoldsNothing(s: State, p: Pid) {
    forall i :: i in s.locks ==> s.locks[i] != p
  }

  // An uncontended open of a whole file succeeds with that file's index.
  lemma SoloOpen(c: Codec, mayCompact: set<Pid>, s: State, p: Pid)
    requires Get(s, p).phase.Closed? && HoldsNothing(s, p)
    requires s.path.Some? && s.path.value < |s.inodes| && s.path.value !in s.locks
    requires FileEntries(c, s.inodes[s.path.value]).Some?
    ensures var ino := s.path.value;
            Steps(c, mayCompact, s, p, OPEN_ACTS) ==
            Moved(s, p, Idle, Handle(ino, |s.inodes[ino]|, IndexOf(FileEntries(c, s.inodes[ino]).value), true))
  {
    hide ParseAll, Complete, Tail, IndexMore, Steps;
    var ino := s.path.value;
    assert s.inodes[ino][0..] == s.inodes[ino];
    var s2 := Step(c, mayCompact, Step(c, mayCompact, s, p, Open), p, LockOpen);
    assert s2 == Moved(s, p, OpenLocked, Handle(ino, 0, EMPTY_INDEX, false)).(locks := s.locks[ino := p]);
    Unlock(s, p, ino);
    ThreeSteps(c, mayCompact, s, p, Open, LockOpen, IndexOpen);
  }

  const OPEN_ACTS := [Open, LockOpen, IndexOpen]

  lemma Unlock(s: State, p: Pid, ino: nat)
    requires HoldsNothing(s, p) && ino !in s.locks
    ensures Release(s.locks[ino := p], p) == s.locks
  {
  }

  function CommitActs(c: Codec, e: Entry, cutoff: int): seq<Action> {
    [BeginCommit(e, cutoff), CheckInode, Reindex, Write(|LineOf(c, e)|), Finish]
  }

  // The state after an uncontended commit by a handle whose reread yields h'.
  function Committed(c: Codec, s: State, p: Pid, h': Handle, e: Entry, cutoff: int): State {
    var line := LineOf(c, e);
    Moved(Append(s, h'.ino, line).(log := s.log + [Wrote(e, cutoff)], acks := s.acks + [|s.log|]), p, Idle,
          h'.(offset := h'.offset + |line|, index := IndexEntry(h'.index, e)))
  }

  // An uncontended commit of an entry that the handle's index does not hold succeeds.
  lemma SoloCommit(c: Codec, mayCompact: set<Pid>, s: State, p: Pid, h: Handle, h': Handle, e: Entry, cutoff: int)
    requires Get(s, p) == Proc(Idle, h) && h.healthy && HoldsNothing(s, p)
    requires s.path == Some(h.ino) && h.ino < |s.inodes| && h.ino !in s.locks
    requires ValidEntry(e) && Unpruned(e)
    requires Reread(c, s.inodes[h.ino], h) == Some(h') && !Indexed(h'.index, e)
    ensures Steps(c, mayCompact, s, p, CommitActs(c, e, cutoff)) == Committed(c, s, p, h', e, cutoff)
  {
    hide IndexMore, Reread, ValidEntry, LineOf, Indexed, Committed, Steps;
    var s1 := Step(c, mayCompact, s, p, BeginCommit(e, cutoff));
    assert s1 == Moved(s, p, CommitLocked(e, cutoff), h).(locks := s.locks[h.ino := p]);
    var s2 := Step(c, mayCompact, s1, p, CheckInode);
    assert s2 == Moved(s, p, CommitChecked(e, cutoff), h).(locks := s.locks[h.ino := p]);
    RereadKeepsInode(c, s.inodes[h.ino], h);
    var s3 := Step(c, mayCompact, s2, p, Reindex);
    assert s3 == Moved(s, p, CommitIndexed(e, cutoff), h').(locks := s.locks[h.ino := p]);
    FinishCommit(c, mayCompact, s, s3, p, h', e, cutoff);
    FiveSteps(c, mayCompact, s, p, BeginCommit(e, cutoff), CheckInode, Reindex, Write(|LineOf(c, e)|), Finish);
    ThreeSteps(c, mayCompact, s2, p, Reindex, Write(|LineOf(c, e)|), Finish);
  }

  lemma FinishCommit(c: Codec, mayCompact: set<Pid>, s: State, s3: State, p: Pid, h': Handle, e: Entry, cutoff: int)
    requires HoldsNothing(s, p) && s.path == Some(h'.ino) && h'.ino < |s.inodes| && h'.ino !in s.locks
    requires s3 == Moved(s, p, CommitIndexed(e, cutoff), h').(locks := s.locks[h'.ino := p])
    ensures Step(c, mayCompact, Step(c, mayCompact, s3, p, Write(|LineOf(c, e)|)), p, Finish) ==
            Committed(c, s, p, h', e, cutoff)
  {
    hide LineOf;
    var line := LineOf(c, e);
    assert line[..|line|] == line;
    Unlock(s, p, h'.ino);
    var t := Step(c, mayCompact, Step(c, mayCompact, s3, p, Write(|line|)), p, Finish);
    assert t.procs == Committed(c, s, p, h', e, cutoff).procs;
  }

  // ---- Compaction --------------------------------------------------------

  function RewriteActs(before: int): seq<Action> {
    [BeginCompact(before), CheckInode, Reindex, Build, Rename]
  }

  const ADOPT_ACTS := [Reopen, Relock, Swap]

  // The state after an uncontended compaction up to and including the rename:
  // the lock on the old inode is still held.
  function Rewritten(c: Codec, s: State, p: Pid, h: Handle, es: seq<Entry>, before: int): State {
    var kept := Compacted(es, before);
    var temp := EncodeAll(c, kept);
    Moved(s.(inodes := s.inodes + [temp], path := Some(|s.inodes|), log := s.log + [Pruned(before)],
             locks := s.locks[h.ino := p]),
          p, CompactRenamed(|temp|, IndexOf(kept), |s.log| + 1), h)
  }

  lemma SoloRewrite(c: Codec, mayCompact: set<Pid>, s: State, p: Pid, h: Handle, es: seq<Entry>, before: int)
    requires p in mayCompact && Get(s, p) == Proc(Idle, h) && h.healthy && HoldsNothing(s, p)
    requires s.path == Some(h.ino) && h.ino < |s.inodes| && h.ino !in s.locks
    requires Reread(c, s.inodes[h.ino], h) == Some(h)
    requires FileEntries(c, s.inodes[h.ino]) == Some(es) && PruneAll(es, before) != es
    ensures Steps(c, mayCompact, s, p, RewriteActs(before)) == Rewritten(c, s, p, h, es, before)
  {
    hide IndexMore, Reread, FileEntries, PruneAll, Compacted, EncodeAll, Steps;
    var s2 := Step(c, mayCompact, Step(c, mayCompact, s, p, BeginCompact(before)), p, CheckInode);
    assert s2 == Moved(s, p, CompactChecked(before), h).(locks := s.locks[h.ino := p]);
    var s3 := Step(c, mayCompact, s2, p, Reindex);
    assert s3 == Moved(s, p, CompactIndexed(before), h).(locks := s.locks[h.ino := p]);
    FiveSteps(c, mayCompact, s, p, BeginCompact(before), CheckInode, Reindex, Build, Rename);
    ThreeSteps(c, mayCompact, s2, p, Reindex, Build, Rename);
    BuildAndRename(c, mayCompact, s, s3, p, h, es, before);
  }

  lemma BuildAndRename(c: Codec, mayCompact: set<Pid>, s: State, s3: State, p: Pid, h: Handle, es: seq<Entry>, before: int)
    requires h.ino < |s.inodes| && FileEntries(c, s.inodes[h.ino]) == Some(es) && PruneAll(es, before) != es
    requires s3 == Moved(s, p, CompactIndexed(before), h).(locks := s.locks[h.ino := p])
    ensures Step(c, mayCompact, Step(c, mayCompact, s3, p, Build), p, Rename) == Rewritten(c, s, p, h, es, before)
  {
    hide IndexMore, FileEntries, PruneAll, Compacted, EncodeAll;
    var t := Step(c, mayCompact, Step(c, mayCompact, s3, p, Build), p, Rename);
    assert t.procs == Rewritten(c, s, p, h, es, before).procs;
  }

  // A compactor whose size guard holds adopts whatever file the path names.
  lemma SoloAdopt(c: Codec, mayCompact: set<Pid>, s: State, p: Pid, h: Handle, size: nat, rebuilt: Index, since: nat)
    requires Get(s, p) == Proc(CompactRenamed(size, rebuilt, since), h)
    requires s.path.Some? && s.path.value < |s.inodes| && s.path.value !in s.locks
    requires |s.inodes[s.path.value]| == size
    ensures Steps(c, mayCompact, s, p, ADOPT_ACTS) ==
            Ended(s, p, Idle, Handle(s.path.value, size, rebuilt, true))
  {
    hide Steps;
    var fd := s.path.value;
    var s2 := Step(c, mayCompact, Step(c, mayCompact, s, p, Reopen), p, Relock);
    assert s2 == Moved(s, p, CompactRelocked(fd, size, rebuilt, since), h).(locks := s.locks[fd := p]);
    ThreeSteps(c, mayCompact, s, p, Reopen, Relock, Swap);
    var t := Step(c, mayCompact, s2, p, Swap);
    assert t.locks == Release(s.locks, p);
    assert t.procs == Ended(s, p, Idle, Handle(fd, size, rebuilt, true)).procs;
  }

  // A compaction that has nothing to rewrite ends with the file, the log and the
  // locks as they were and the handle healthy and up to date.
  lemma SoloNoOpCompaction(c: Codec, mayCompact: set<Pid>, s: State, p: Pid, h: Handle, h': Handle, es: seq<Entry>, before: int)
    requires p in mayCompact && Get(s, p) == Proc(Idle, h) && h.healthy && HoldsNothing(s, p)
    requires s.path == Some(h.ino) && h.ino < |s.inodes| && h.ino !in s.locks
    requires Reread(c, s.inodes[h.ino], h) == Some(h')
    requires FileEntries(c, s.inodes[h.ino]) == Some(es) && PruneAll(es, before) == es
    ensures Steps(c, mayCompact, s, p, [BeginCompact(before), CheckInode, Reindex, Build, Rename]) == Moved(s, p, Idle, h')
    ensures h'.healthy && h'.ino == h.ino && h'.offset == |s.inodes[h.ino]|
  {
    hide IndexMore, FileEntries, PruneAll, Compacted, EncodeAll, Steps, Reread;
    RereadReachesEnd(c, s.inodes[h.ino], h);
    var s2 := Step(c, mayCompact, Step(c, mayCompact, s, p, BeginCompact(before)), p, CheckInode);
    assert s2 == Moved(s, p, CompactChecked(before), h).(locks := s.locks[h.ino := p]);
    var s3 := Step(c, mayCompact, s2, p, Reindex);
    assert s3 == Moved(s, p, CompactIndexed(before), h').(locks := s.locks[h.ino := p]);
    FiveSteps(c, mayCompact, s, p, BeginCompact(before), CheckInode, Reindex, Build, Rename);
    ThreeSteps(c, mayCompact, s2, p, Reindex, Build, Rename);
    BuildsNothing(c, mayCompact, s, s3, p, h', es, before);
  }

  lemma RereadReachesEnd(c: Codec, content: Bytes, h: Handle)
    ensures Reread(c, content, h).Some? ==>
              var r := Reread(c, content, h).value;
              r.ino == h.ino && r.healthy == h.healthy && r.offset == |content|
  {
  }

  lemma BuildsNothing(c: Codec, mayCompact: set<Pid>, s: State, s3: State, p: Pid, h': Handle, es: seq<Entry>, before: int)
    requires HoldsNothing(s, p) && h'.ino < |s.inodes| && h'.ino !in s.locks
    requires FileEntries(c, s.inodes[h'.ino]) == Some(es) && PruneAll(es, before) == es
    requires s3 == Moved(s, p, CompactIndexed(before), h').(locks := s.locks[h'.ino := p])
    ensures Step(c, mayCompact, Step(c, mayCompact, s3, p, Build), p, Rename) == Moved(s, p, Idle, h')
  {
    hide FileEntries, PruneAll, Compacted, EncodeAll;
    Unlock(s, p, h'.ino);
    var s4 := Step(c, mayCompact, s3, p, Build);
    assert s4.procs == Moved(s, p, Idle, h').procs;
    assert s4 == Moved(s, p, Idle, h');
  }

  // Opening where there is no file creates an empty one.
  lemma SoloCreate(c: Codec, mayCompact: set<Pid>, s: State, p: Pid)
    requires Get(s, p).phase.Closed? && HoldsNothing(s, p) && s.path.None? && |s.inodes| !in s.locks
    ensures Steps(c, mayCompact, s, p, OPEN_ACTS) ==
            Moved(s.(inodes := s.inodes + [[]], path := Some(|s.inodes|)), p, Idle, Handle(|s.inodes|, 0, EMPTY_INDEX, true))
  {
    hide ParseAll, Complete, Tail, IndexMore, Steps;
    var ino := |s.inodes|;
    var created := s.(inodes := s.inodes + [[]], path := Some(ino));
    var s2 := Step(c, mayCompact, Step(c, mayCompact, s, p, Open), p, LockOpen);
    assert s2 == Moved(created, p, OpenLocked, Handle(ino, 0, EMPTY_INDEX, false)).(locks := s.locks[ino := p]);
    Unlock(s, p, ino);
    EmptyReread(c, Handle(ino, 0, EMPTY_INDEX, false));
    var s3 := Step(c, mayCompact, s2, p, IndexOpen);
    assert s3.procs == Moved(created, p, Idle, Handle(ino, 0, EMPTY_INDEX, true)).procs;
    ThreeSteps(c, mayCompact, s, p, Open, LockOpen, IndexOpen);
  }

  lemma EmptyReread(c: Codec, h: Handle)
    requires h.offset == 0
    ensures Reread(c, [], h) == Some(h)
  {
    RereadNothing(c, [], h);
  }

  // A crash frees whatever the process held and touches nothing else.
  lemma CrashFrees(c: Codec, mayCompact: set<Pid>, s: State, p: Pid)
    ensures var t := Step(c, mayCompact, s, p, Crash);
            && Get(t, p).phase.Closed? && (forall i :: !Owns(t, p, i))
            && (forall q, i :: q != p ==> (Owns(t, q, i) <==> Owns(s, q, i)))
            && (forall q: Pid :: q != p ==> Get(t, q) == Get(s, q))
            && t.inodes == s.inodes && t.path == s.path && t.log == s.log && t.acks == s.acks
  {
  }

  // ---- Small files -------------------------------------------------------

  lemma OneEntry(c: Codec, e: Entry)
    ensures EncodeAll(c, [e]) == LineOf(c, e)
    ensures IndexOf([e]) == IndexEntry(EMPTY_INDEX, e)
    ensures !Dead(e) ==> Retained([e]) == [e]
  {
    assert [e][..0] == [];
    assert [] + LineOf(c, e) == LineOf(c, e);
    assert EncodeAll(c, []) == [] && Retained([]) == [] && IndexMore(EMPTY_INDEX, []) == EMPTY_INDEX;
    assert [] + [e] == [e];
  }

  lemma OneEntryFile(c: Codec, e: Entry)
    requires Good(c) && ValidEntry(e)
    ensures FileEntries(c, LineOf(c, e)) == Some([e])
  {
    OneEntry(c, e);
    assert [e][0] == e;
    RewriteRoundTrip(c, [e]);
  }

  // A handle at the end of a file rereads nothing.
  lemma RereadNothing(c: Codec, content: Bytes, h: Handle)
    requires h.offset == |content|
    ensures Reread(c, content, h) == Some(h)
  {
    assert content[|content|..] == [];
    EmptyFile(c);
    assert IndexMore(h.index, []) == h.index;
  }

  lemma CreatedRun(c: Codec, mayCompact: set<Pid>, p: Pid)
    ensures Run(c, mayCompact, [Turn(p, Open), Turn(p, Crash)]) ==
            State([[]], Some(0), map[], map[p := Proc(Closed, Handle(0, 0, EMPTY_INDEX, false))], [], [])
  {
    var turns := [Turn(p, Open), Turn(p, Crash)];
    assert turns[..1] == [Turn(p, Open)] && turns[..1][..0] == [];
    assert Run(c, mayCompact, []) == INITIAL;
    var s1 := Run(c, mayCompact, turns[..1]);
    assert s1 == Step(c, mayCompact, INITIAL, p, Open);
    var s2 := Run(c, mayCompact, turns);
    assert s2 == Step(c, mayCompact, s1, p, Crash);
    assert s2.locks == map[];
    assert s2.procs == map[p := Proc(Closed, Handle(0, 0, EMPTY_INDEX, false))];
  }

  lemma PruneOne(c: Codec, e: Entry, before: int)
    ensures PruneAll([e], before) == [Prune(e, before)]
    ensures !Dead(Prune(e, before)) ==>
              Compacted([e], before) == [Prune(e, before)] && EncodeAll(c, Compacted([e], before)) == LineOf(c, Prune(e, before))
  {
    OneEntry(c, Prune(e, before));
  }
}
