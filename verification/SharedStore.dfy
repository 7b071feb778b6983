// Several processes sharing one replay-store file, at the granularity at which
// their operations can interleave: obtaining a descriptor, taking the advisory
// lock, checking that the path still names the open inode, reindexing, writing
// a line, renaming a rewritten file into place, reopening it.  A process may
// crash between any two steps, and a write may stop after any number of bytes.
module SharedStore {
  import opened Optional
  import opened Lines
  import opened ReplaySet
  import opened ReplayLog
  import opened ReplayHistory

  type Pid = nat

  // One FileReplayStore: its descriptor's inode, readOffset, maps and health.
  datatype Handle = Handle(ino: nat, offset: nat, index: Index, healthy: bool)

  // Where a process is inside OpenFileReplayStore, CommitIfNew or Compact.
  datatype Phase =
    | Closed
    | Opened                       // descriptor obtained, not locked yet
    | OpenLocked
    | Idle
    | CommitLocked(entry: Entry, cutoff: int)
    | CommitChecked(entry: Entry, cutoff: int)
    | CommitIndexed(entry: Entry, cutoff: int)
    | CommitWritten(entry: Entry, cutoff: int, at: nat)   // at: position in the log
    | CompactLocked(before: int)
    | CompactChecked(before: int)
    | CompactIndexed(before: int)
    | CompactBuilt(before: int, temp: Bytes, rebuilt: Index)
    | CompactRenamed(size: nat, rebuilt: Index, since: nat)   // since: log length after the rename
    | CompactReopened(fd: nat, size: nat, rebuilt: Index, since: nat)
    | CompactRelocked(fd: nat, size: nat, rebuilt: Index, since: nat)

  datatype Proc = Proc(phase: Phase, h: Handle)

  // inodes and path are the file system, locks the flock owners.  log records
  // the steps that took effect on the file and acks the commits that returned
  // success (as positions in log); no step reads either.
  datatype State = State(
    inodes: seq<Bytes>, path: Option<nat>, locks: map<nat, Pid>, procs: map<Pid, Proc>,
    log: seq<Event>, acks: seq<nat>)

  const INITIAL := State([], None, map[], map[], [], [])

  datatype Action =
    | Open | LockOpen | IndexOpen
    | BeginCommit(entry: Entry, cutoff: int) | BeginCompact(before: int)
    | CheckInode | Reindex
    | Write(bytes: nat)            // how many bytes of the line reach the file
    | Finish | Build | Rename | Reopen | Relock | Swap
    | Fail                         // an I/O error or lock timeout
    | Crash

  function Get(s: State, p: Pid): Proc {
    if p in s.procs then s.procs[p] else Proc(Closed, Handle(0, 0, EMPTY_INDEX, false))
  }

  function Release(locks: map<nat, Pid>, p: Pid): map<nat, Pid> {
    map i | i in locks && locks[i] != p :: locks[i]
  }

  function Moved(s: State, p: Pid, phase: Phase, h: Handle): State {
    s.(procs := s.procs[p := Proc(phase, h)])
  }

  // The operation ends: every lock the process holds is released.
  function Ended(s: State, p: Pid, phase: Phase, h: Handle): State {
    Moved(s, p, phase, h).(locks := Release(s.locks, p))
  }

  // The operation ends with an error that leaves the handle unusable.
  function Unhealthy(s: State, p: Pid): State {
    Ended(s, p, Idle, Get(s, p).h.(healthy := false))
  }

  // reindexLocked: read every line after the offset, or fail.
  function Reread(c: Codec, content: Bytes, h: Handle): Option<Handle> {
    if |content| < h.offset || Tail(content[h.offset..]) != [] then None
    else
      match ParseAll(c, Complete(content[h.offset..]))
      case None => None
      case Some(es) => Some(h.(offset := |content|, index := IndexMore(h.index, es)))
  }

  lemma RereadKeepsInode(c: Codec, content: Bytes, h: Handle)
    ensures Reread(c, content, h).Some? ==>
              Reread(c, content, h).value.ino == h.ino && Reread(c, content, h).value.healthy == h.healthy
  {
  }

  function StepOpen(s: State, p: Pid): State {
    if Get(s, p).phase != Closed then s
    else if s.path.Some? then Moved(s, p, Opened, Handle(s.path.value, 0, EMPTY_INDEX, false))
    else Moved(Created(s), p, Opened, Handle(|s.inodes|, 0, EMPTY_INDEX, false))
  }

  // O_CREATE on a missing path.
  function Created(s: State): State {
    s.(inodes := s.inodes + [[]], path := Some(|s.inodes|))
  }

  // Take the lock on an inode nobody holds, and go to the given phase.
  function Locking(s: State, p: Pid, ino: nat, phase: Phase): State {
    if ino in s.locks then s
    else Moved(s, p, phase, Get(s, p).h).(locks := s.locks[ino := p])
  }

  function StepIndexOpen(c: Codec, s: State, p: Pid): State {
    var h := Get(s, p).h;
    if Get(s, p).phase != OpenLocked || h.ino >= |s.inodes| then s
    else
      match Reread(c, s.inodes[h.ino], h)
      case None => Ended(s, p, Closed, h)
      case Some(h') => Ended(s, p, Idle, h'.(healthy := true))
  }

  function StepCheck(s: State, p: Pid): State {
    var Proc(ph, h) := Get(s, p);
    if !ph.CommitLocked? && !ph.CompactLocked? then s
    else if s.path != Some(h.ino) then Unhealthy(s, p)
    else if ph.CommitLocked? then Moved(s, p, CommitChecked(ph.entry, ph.cutoff), h)
    else Moved(s, p, CompactChecked(ph.before), h)
  }

  function StepReindex(c: Codec, s: State, p: Pid): State {
    var Proc(ph, h) := Get(s, p);
    if (!ph.CommitChecked? && !ph.CompactChecked?) || h.ino >= |s.inodes| then s
    else
      match Reread(c, s.inodes[h.ino], h)
      case None => Unhealthy(s, p)
      case Some(h') =>
        if ph.CompactChecked? then Moved(s, p, CompactIndexed(ph.before), h')
        else if Indexed(h'.index, ph.entry) then Ended(s, p, Idle, h')   // ErrReplayConflict
        else Moved(s, p, CommitIndexed(ph.entry, ph.cutoff), h')
  }

  function Append(s: State, ino: nat, bytes: Bytes): State {
    if ino < |s.inodes| then s.(inodes := s.inodes[ino := s.inodes[ino] + bytes]) else s
  }

  function StepWrite(c: Codec, s: State, p: Pid, bytes: nat): State {
    var Proc(ph, h) := Get(s, p);
    if !ph.CommitIndexed? then s
    else
      var line := LineOf(c, ph.entry);
      if bytes < |line| then Unhealthy(Append(s, h.ino, line[..bytes]), p)
      else
        Moved(Append(s, h.ino, line).(log := s.log + [Wrote(ph.entry, ph.cutoff)]), p,
              CommitWritten(ph.entry, ph.cutoff, |s.log|), h)
  }

  // The inode is checked once more after the fsync; only then is the commit acknowledged.
  function StepFinish(c: Codec, s: State, p: Pid): State {
    var Proc(ph, h) := Get(s, p);
    if !ph.CommitWritten? then s
    else if s.path != Some(h.ino) then Unhealthy(s, p)
    else
      Ended(s.(acks := s.acks + [ph.at]), p, Idle,
            h.(offset := h.offset + |LineOf(c, ph.entry)|, index := IndexEntry(h.index, ph.entry)))
  }

  function StepBuild(c: Codec, s: State, p: Pid): State {
    var Proc(ph, h) := Get(s, p);
    if !ph.CompactIndexed? || h.ino >= |s.inodes| then s
    else
      match FileEntries(c, s.inodes[h.ino])
      case None => Unhealthy(s, p)
      case Some(es) =>
        if PruneAll(es, ph.before) == es then Ended(s, p, Idle, h)   // nothing to rewrite
        else
          var kept := Compacted(es, ph.before);
          Moved(s, p, CompactBuilt(ph.before, EncodeAll(c, kept), IndexOf(kept)), h)
  }

  function StepRename(s: State, p: Pid): State {
    var Proc(ph, h) := Get(s, p);
    if !ph.CompactBuilt? then s
    else
      Moved(s.(inodes := s.inodes + [ph.temp], path := Some(|s.inodes|), log := s.log + [Pruned(ph.before)]),
            p, CompactRenamed(|ph.temp|, ph.rebuilt, |s.log| + 1), h)
  }

  function StepReopen(s: State, p: Pid): State {
    var Proc(ph, h) := Get(s, p);
    if !ph.CompactRenamed? || s.path.None? then s
    else Moved(s, p, CompactReopened(s.path.value, ph.size, ph.rebuilt, ph.since), h)
  }

  // The path and the size must still be what the compactor left.
  function StepSwap(s: State, p: Pid): State {
    var Proc(ph, h) := Get(s, p);
    if !ph.CompactRelocked? || ph.fd >= |s.inodes| then s
    else if s.path != Some(ph.fd) || |s.inodes[ph.fd]| != ph.size then Unhealthy(s, p)
    else Ended(s, p, Idle, Handle(ph.fd, ph.size, ph.rebuilt, true))
  }

  function StepFail(s: State, p: Pid): State {
    var ph := Get(s, p).phase;
    if ph.Closed? then s
    else if ph.Opened? || ph.OpenLocked? then Ended(s, p, Closed, Get(s, p).h)
    else Unhealthy(s, p)
  }

  // One step of process p; a step that is not enabled changes nothing.
  function Step(c: Codec, mayCompact: set<Pid>, s: State, p: Pid, a: Action): State {
    var Proc(ph, h) := Get(s, p);
    match a
    case Open => StepOpen(s, p)
    case LockOpen => if ph.Opened? then Locking(s, p, h.ino, OpenLocked) else s
    case IndexOpen => StepIndexOpen(c, s, p)
    case BeginCommit(e, cutoff) =>
      if ph.Idle? && h.healthy && ValidEntry(e) && Unpruned(e) then Locking(s, p, h.ino, CommitLocked(e, cutoff)) else s
    case BeginCompact(before) =>
      if ph.Idle? && h.healthy && p in mayCompact then Locking(s, p, h.ino, CompactLocked(before)) else s
    case CheckInode => StepCheck(s, p)
    case Reindex => StepReindex(c, s, p)
    case Write(n) => StepWrite(c, s, p, n)
    case Finish => StepFinish(c, s, p)
    case Build => StepBuild(c, s, p)
    case Rename => StepRename(s, p)
    case Reopen => StepReopen(s, p)
    case Relock => if ph.CompactReopened? then Locking(s, p, ph.fd, CompactRelocked(ph.fd, ph.size, ph.rebuilt, ph.since)) else s
    case Swap => StepSwap(s, p)
    case Fail => StepFail(s, p)
    case Crash => Ended(s, p, Closed, h)
  }

  datatype Turn = Turn(p: Pid, a: Action)

  // Any interleaving is a sequence of turns.
  function Run(c: Codec, mayCompact: set<Pid>, turns: seq<Turn>): State {
    if turns == [] then INITIAL
    else
      var t := turns[|turns| - 1];
      Step(c, mayCompact, Run(c, mayCompact, turns[..|turns| - 1]), t.p, t.a)
  }

  // ---- Invariant ---------------------------------------------------------

  ghost predicate AtMostOne(pids: set<Pid>) {
    forall p, q :: p in pids && q in pids ==> p == q
  }

  // The handle's maps are exactly the index of the bytes up to its offset.
  ghost predicate HandleOk(c: Codec, inodes: seq<Bytes>, h: Handle) {
    && h.ino < |inodes| && h.offset <= |inodes[h.ino]|
    && FileEntries(c, inodes[h.ino][..h.offset]).Some?
    && h.index == IndexOf(FileEntries(c, inodes[h.ino][..h.offset]).value)
  }

  predicate HoldsLock(ph: Phase) {
    || ph.OpenLocked? || ph.CommitLocked? || ph.CommitChecked? || ph.CommitIndexed? || ph.CommitWritten?
    || ph.CompactLocked? || ph.CompactChecked? || ph.CompactIndexed? || ph.CompactBuilt?
  }

  predicate InodeChecked(ph: Phase) {
    || ph.CommitChecked? || ph.CommitIndexed? || ph.CommitWritten?
    || ph.CompactChecked? || ph.CompactIndexed? || ph.CompactBuilt?
  }

  predicate CaughtUp(ph: Phase) { ph.CommitIndexed? || ph.CompactIndexed? || ph.CompactBuilt? }

  predicate Committing(ph: Phase) { ph.CommitLocked? || ph.CommitChecked? || ph.CommitIndexed? }

  predicate AfterRename(ph: Phase) { ph.CompactRenamed? || ph.CompactReopened? || ph.CompactRelocked? }

  predicate Compacting(ph: Phase) {
    ph.CompactLocked? || ph.CompactChecked? || ph.CompactIndexed? || ph.CompactBuilt? || AfterRename(ph)
  }

  predicate Owns(s: State, p: Pid, ino: nat) { ino in s.locks && s.locks[ino] == p }

  ghost predicate ProcInv(c: Codec, mayCompact: set<Pid>, s: State, p: Pid) {
    var Proc(ph, h) := Get(s, p);
    && (!ph.Closed? && (ph.Idle? ==> h.healthy) ==> HandleOk(c, s.inodes, h))
    && (HoldsLock(ph) ==> Owns(s, p, h.ino))
    && (HoldsLock(ph) && !ph.OpenLocked? ==> h.healthy)
    && (InodeChecked(ph) ==> s.path == Some(h.ino))
    && (CaughtUp(ph) ==> h.offset == |s.inodes[h.ino]|)
    && (Committing(ph) ==> ValidEntry(ph.entry) && Unpruned(ph.entry))
    && (ph.CommitIndexed? ==> !Indexed(h.index, ph.entry))
    && (ph.CommitWritten? ==> Written(c, s, ph, h))
    && (Compacting(ph) ==> p in mayCompact)
    && (ph.CompactBuilt? ==> Built(c, s, ph))
    && (AfterRename(ph) ==> Renamed(c, s, ph))
  }

  // The line is the file's last, the write is the log's last event, unacknowledged.
  ghost predicate Written(c: Codec, s: State, ph: Phase, h: Handle)
    requires ph.CommitWritten? && HandleOk(c, s.inodes, h)
  {
    && ValidEntry(ph.entry)
    && s.log != [] && ph.at == |s.log| - 1 && s.log[ph.at] == Wrote(ph.entry, ph.cutoff)
    && (forall k :: 0 <= k < |s.acks| ==> s.acks[k] < ph.at)
    && s.inodes[h.ino] == s.inodes[h.ino][..h.offset] + LineOf(c, ph.entry)
  }

  ghost predicate Built(c: Codec, s: State, ph: Phase)
    requires ph.CompactBuilt?
  {
    var kept := Compacted(Replay(s.log), ph.before);
    ph.temp == EncodeAll(c, kept) && ph.rebuilt == IndexOf(kept)
  }

  // The renamed file starts with the bytes the compactor wrote, so an unchanged
  // size means unchanged bytes.
  ghost predicate Renamed(c: Codec, s: State, ph: Phase)
    requires AfterRename(ph)
  {
    && s.path.Some? && HandleOk(c, s.inodes, Handle(s.path.value, ph.size, ph.rebuilt, true))
    && (ph.CompactReopened? || ph.CompactRelocked? ==> s.path == Some(ph.fd))
    && ph.since <= |s.log|
    && (ph.since < |s.log| ==> ph.size < |s.inodes[s.path.value]|)
  }

  // The file at the path holds exactly the retained part of the replay set.
  ghost predicate FileInv(c: Codec, s: State) {
    && (forall i :: 0 <= i < |s.inodes| ==> ParseAll(c, Complete(s.inodes[i])).Some?)
    && (s.path.None? ==> s.log == [])
    && (s.path.Some? ==>
          && s.path.value < |s.inodes|
          && ParseAll(c, Complete(s.inodes[s.path.value])).value == Retained(Replay(s.log)))
  }

  ghost predicate LogInv(s: State) {
    && Admissible(s.log)
    && (forall k :: 0 <= k < |s.acks| ==> s.acks[k] < |s.log| && s.log[s.acks[k]].Wrote?)
    && (forall k, l :: 0 <= k < l < |s.acks| ==> s.acks[k] < s.acks[l])
  }

  ghost predicate Inv(c: Codec, mayCompact: set<Pid>, s: State) {
    && FileInv(c, s)
    && LogInv(s)
    && (forall p: Pid :: ProcInv(c, mayCompact, s, p))
  }

  // ---- What a step of one process leaves alone for another ---------------

  ghost predicate Undisturbed(mayCompact: set<Pid>, s: State, t: State, q: Pid) {
    && Get(t, q) == Get(s, q)
    && |s.inodes| <= |t.inodes|
    && (forall i :: 0 <= i < |s.inodes| ==> s.inodes[i] <= t.inodes[i])
    && (forall i: nat :: Owns(s, q, i) ==> Owns(t, q, i) && (i < |s.inodes| ==> t.inodes[i] == s.inodes[i]))
    && (s.path.Some? && Owns(s, q, s.path.value) ==> t.path == s.path && t.log == s.log && t.acks == s.acks)
    && (s.path.Some? && q in mayCompact ==> t.path == s.path)
    && |s.log| <= |t.log|
    && (s.path.Some? && s.path.value < |s.inodes| && t.path == s.path && t.log != s.log ==>
          |s.inodes[s.path.value]| < |t.inodes[s.path.value]|)
  }

  lemma HandleOkGrows(c: Codec, before: seq<Bytes>, after: seq<Bytes>, h: Handle)
    requires HandleOk(c, before, h)
    requires |before| <= |after| && forall i :: 0 <= i < |before| ==> before[i] <= after[i]
    ensures HandleOk(c, after, h)
  {
    assert before[h.ino] <= after[h.ino];
    assert after[h.ino][..h.offset] == before[h.ino][..h.offset];
  }

  lemma UndisturbedKeeps(c: Codec, mayCompact: set<Pid>, s: State, t: State, q: Pid)
    requires ProcInv(c, mayCompact, s, q) && Undisturbed(mayCompact, s, t, q)
    ensures ProcInv(c, mayCompact, t, q)
  {
    var Proc(ph, h) := Get(s, q);
    if !ph.Closed? && (ph.Idle? ==> h.healthy) {
      HandleOkGrows(c, s.inodes, t.inodes, h);
    }
    if AfterRename(ph) {
      HandleOkGrows(c, s.inodes, t.inodes, Handle(s.path.value, ph.size, ph.rebuilt, true));
    }
  }

  lemma Assemble(c: Codec, mayCompact: set<Pid>, s: State, t: State, p: Pid)
    requires Inv(c, mayCompact, s)
    requires FileInv(c, t) && LogInv(t) && ProcInv(c, mayCompact, t, p)
    requires forall q: Pid :: q != p ==> Undisturbed(mayCompact, s, t, q)
    ensures Inv(c, mayCompact, t)
  {
    forall q: Pid ensures ProcInv(c, mayCompact, t, q) {
      if q != p {
        UndisturbedKeeps(c, mayCompact, s, t, q);
      }
    }
  }

  // Nothing but p's own phase, handle and locks changed.
  ghost predicate LocalTo(s: State, t: State, p: Pid) {
    && t.inodes == s.inodes && t.path == s.path && t.log == s.log && t.acks == s.acks
    && (forall q: Pid :: q != p ==> Get(t, q) == Get(s, q))
    && (forall i :: i in s.locks && s.locks[i] != p ==> i in t.locks && t.locks[i] == s.locks[i])
  }

  lemma LocalKeeps(c: Codec, mayCompact: set<Pid>, s: State, t: State, p: Pid)
    requires Inv(c, mayCompact, s) && LocalTo(s, t, p) && ProcInv(c, mayCompact, t, p)
    ensures Inv(c, mayCompact, t)
  {
    hide ParseAll, Complete, Tail, Replay, Retained, ProcInv, LogInv, HandleOk;
    assert FileInv(c, t);
    assert LogInv(t) by { LogInvOf(s, t); }
    Assemble(c, mayCompact, s, t, p);
  }

  lemma LogInvOf(s: State, t: State)
    requires LogInv(s) && t.log == s.log && t.acks == s.acks
    ensures LogInv(t)
  {
  }

  lemma MovedIsLocal(s: State, p: Pid, ph: Phase, h: Handle)
    ensures LocalTo(s, Moved(s, p, ph, h), p) && LocalTo(s, Ended(s, p, ph, h), p)
    ensures Get(Moved(s, p, ph, h), p) == Proc(ph, h) && Get(Ended(s, p, ph, h), p) == Proc(ph, h)
  {
  }

  lemma LockingIsLocal(s: State, p: Pid, ino: nat, ph: Phase)
    ensures LocalTo(s, Locking(s, p, ino, ph), p)
  {
  }

  // An operation that ends leaves nothing to check but the handle.
  lemma EndedKeeps(c: Codec, mayCompact: set<Pid>, s: State, p: Pid, ph: Phase, h: Handle)
    requires Inv(c, mayCompact, s)
    requires ph.Closed? || (ph.Idle? && (h.healthy ==> HandleOk(c, s.inodes, h)))
    ensures Inv(c, mayCompact, Ended(s, p, ph, h))
  {
    hide Inv, LocalTo, HandleOk, Release, ParseAll, Complete, Tail;
    MovedIsLocal(s, p, ph, h);
    LocalKeeps(c, mayCompact, s, Ended(s, p, ph, h), p);
  }

  lemma MovedKeeps(c: Codec, mayCompact: set<Pid>, s: State, p: Pid, ph: Phase, h: Handle)
    requires Inv(c, mayCompact, s) && ProcInv(c, mayCompact, Moved(s, p, ph, h), p)
    ensures Inv(c, mayCompact, Moved(s, p, ph, h))
  {
    hide Inv, LocalTo, ProcInv;
    MovedIsLocal(s, p, ph, h);
    LocalKeeps(c, mayCompact, s, Moved(s, p, ph, h), p);
  }

  // ---- Reindexing --------------------------------------------------------

  // A handle whose maps index a prefix of the file is, after a successful
  // reread, indexed up to the end of the file.
  lemma RereadCatchesUp(c: Codec, inodes: seq<Bytes>, h: Handle)
    requires HandleOk(c, inodes, h)
    ensures Reread(c, inodes[h.ino], h).Some? <==> FileEntries(c, inodes[h.ino]).Some?
    ensures Reread(c, inodes[h.ino], h).Some? ==>
              var h' := Reread(c, inodes[h.ino], h).value;
              HandleOk(c, inodes, h') && h'.offset == |inodes[h.ino]| && h'.ino == h.ino && h'.healthy == h.healthy
              && h'.index == IndexOf(FileEntries(c, inodes[h.ino]).value)
  {
    hide ParseAll, Complete, Tail, IndexMore;
    var content := inodes[h.ino];
    var a, b := content[..h.offset], content[h.offset..];
    assert content == a + b;
    ReadOn(c, a, b);
    assert content[..|content|] == content;
    if Reread(c, content, h).Some? {
      IndexConcat(EMPTY_INDEX, FileEntries(c, a).value, ParseAll(c, Complete(b)).value);
    }
  }

  lemma IndexOpenKeeps(c: Codec, mayCompact: set<Pid>, s: State, p: Pid)
    requires Good(c) && Inv(c, mayCompact, s)
    ensures Inv(c, mayCompact, StepIndexOpen(c, s, p))
  {
    hide Inv, HandleOk, Reread, FileEntries, Ended;
    var Proc(ph, h) := Get(s, p);
    assert ProcInv(c, mayCompact, s, p) by { InvAt(c, mayCompact, s, p); }
    if ph.OpenLocked? && h.ino < |s.inodes| {
      RereadCatchesUp(c, s.inodes, h);
      match Reread(c, s.inodes[h.ino], h) {
        case None => EndedKeeps(c, mayCompact, s, p, Closed, h);
        case Some(h') =>
          HealthIsNoMatter(c, s.inodes, h', true);
          EndedKeeps(c, mayCompact, s, p, Idle, h'.(healthy := true));
      }
    }
  }

  lemma InvAt(c: Codec, mayCompact: set<Pid>, s: State, p: Pid)
    requires Inv(c, mayCompact, s)
    ensures ProcInv(c, mayCompact, s, p) && FileInv(c, s) && LogInv(s)
  {
  }

  lemma HealthIsNoMatter(c: Codec, inodes: seq<Bytes>, h: Handle, healthy: bool)
    requires HandleOk(c, inodes, h)
    ensures HandleOk(c, inodes, h.(healthy := healthy))
  {
  }

  lemma ReindexKeeps(c: Codec, mayCompact: set<Pid>, s: State, p: Pid)
    requires Good(c) && Inv(c, mayCompact, s)
    ensures Inv(c, mayCompact, StepReindex(c, s, p))
  {
    hide Inv, HandleOk, Reread, FileEntries, Ended, ValidEntry;
    var Proc(ph, h) := Get(s, p);
    assert ProcInv(c, mayCompact, s, p) by { InvAt(c, mayCompact, s, p); }
    if (ph.CommitChecked? || ph.CompactChecked?) && h.ino < |s.inodes| {
      RereadCatchesUp(c, s.inodes, h);
      match Reread(c, s.inodes[h.ino], h) {
        case None => EndedKeeps(c, mayCompact, s, p, Idle, h.(healthy := false));
        case Some(h') =>
          if ph.CompactChecked? {
            MovedKeeps(c, mayCompact, s, p, CompactIndexed(ph.before), h');
          } else if Indexed(h'.index, ph.entry) {
            EndedKeeps(c, mayCompact, s, p, Idle, h');
          } else {
            MovedKeeps(c, mayCompact, s, p, CommitIndexed(ph.entry, ph.cutoff), h');
          }
      }
    }
  }

  // ---- Opening -----------------------------------------------------------

  lemma OpenKeeps(c: Codec, mayCompact: set<Pid>, s: State, p: Pid)
    requires Good(c) && Inv(c, mayCompact, s)
    ensures Inv(c, mayCompact, StepOpen(s, p))
  {
    hide Inv, ParseAll, Complete, Tail, Replay, Retained, Admissible, Reread;
    if Get(s, p).phase.Closed? {
      var created := if s.path.Some? then s else Created(s);
      CreateKeeps(c, mayCompact, s);
      var h := Handle(created.path.value, 0, EMPTY_INDEX, false);
      InvAt(c, mayCompact, created, p);
      EmptyFile(c);
      assert created.inodes[h.ino][..0] == [];
      assert HandleOk(c, created.inodes, h);
      hide HandleOk;
      MovedKeeps(c, mayCompact, created, p, Opened, h);
    }
  }

  lemma CreateKeeps(c: Codec, mayCompact: set<Pid>, s: State)
    requires Inv(c, mayCompact, s)
    ensures s.path.None? ==> Inv(c, mayCompact, Created(s))
  {
    hide Inv, ParseAll, Complete, Tail, Replay, Retained, HandleOk;
    InvAt(c, mayCompact, s, 0);
    if s.path.None? {
      var t := Created(s);
      EmptyFile(c);
      assert FileInv(c, t);
      LogInvOf(s, t);
      hide LogInv, FileInv;
      UndisturbedKeeps(c, mayCompact, s, t, 0);
      Assemble(c, mayCompact, s, t, 0);
    }
  }

  lemma EmptyFile(c: Codec)
    ensures Complete([]) == [] && FileEntries(c, []) == Some([]) && IndexOf([]) == EMPTY_INDEX
    ensures Replay([]) == [] && Retained([]) == []
  {
  }

  // ---- Committing --------------------------------------------------------

  // Facts that hold when a commit is about to write: the file is whole, its
  // entries are the retained replay set, and none of them clashes.
  lemma AboutToWrite(c: Codec, mayCompact: set<Pid>, s: State, p: Pid)
    requires Inv(c, mayCompact, s) && Get(s, p).phase.CommitIndexed?
    ensures var Proc(ph, h) := Get(s, p);
            && s.path == Some(h.ino) && Owns(s, p, h.ino) && h.ino < |s.inodes|
            && FileEntries(c, s.inodes[h.ino]) == Some(Retained(Replay(s.log)))
            && !Conflicts(Retained(Replay(s.log)), ph.entry)
            && !Conflicts(Replay(s.log), ph.entry)
            && Unpruned(ph.entry)
  {
    var Proc(ph, h) := Get(s, p);
    assert ProcInv(c, mayCompact, s, p);
    assert s.inodes[h.ino][..h.offset] == s.inodes[h.ino];
    IndexAnswers(Retained(Replay(s.log)), ph.entry);
    RetainedKeepsAnswers(Replay(s.log), ph.entry);
  }

  lemma AdmissibleSnoc(log: seq<Event>, ev: Event)
    requires Admissible(log)
    requires ev.Wrote? ==> Unpruned(ev.entry) && !Conflicts(Replay(log), ev.entry)
    ensures Admissible(log + [ev])
  {
    var after := log + [ev];
    forall j | 0 <= j < |after| && after[j].Wrote?
      ensures Unpruned(after[j].entry) && !Conflicts(Replay(after[..j]), after[j].entry)
    {
      assert after[..j] == log[..j];
      assert log[..|log|] == log;
    }
  }

  lemma WriteFileInv(c: Codec, mayCompact: set<Pid>, s: State, p: Pid, bytes: nat)
    requires Good(c) && Inv(c, mayCompact, s) && Get(s, p).phase.CommitIndexed?
    ensures FileInv(c, StepWrite(c, s, p, bytes))
  {
    hide Inv, ParseAll, Complete, Tail, Replay, Retained, HandleOk;
    var Proc(ph, h) := Get(s, p);
    InvAt(c, mayCompact, s, p);
    AboutToWrite(c, mayCompact, s, p);
    var content := s.inodes[h.ino];
    if bytes < |LineOf(c, ph.entry)| {
      AppendTorn(c, content, ph.entry, bytes);
    } else {
      AppendEntry(c, content, ph.entry);
      ReplaySnoc(s.log, Wrote(ph.entry, ph.cutoff));
      RetainedSnoc(Replay(s.log), ph.entry);
    }
  }

  // Bytes appended to the file at the path by the owner of its lock.
  lemma AppendUndisturbed(mayCompact: set<Pid>, s: State, t: State, p: Pid, q: Pid, ino: nat, bytes: Bytes)
    requires q != p && Owns(s, p, ino) && s.path == Some(ino) && ino < |s.inodes|
    requires t.inodes == s.inodes[ino := s.inodes[ino] + bytes] && t.path == s.path
    requires t.log == s.log || (|s.log| < |t.log| && bytes != [])
    requires Get(t, q) == Get(s, q)
    requires forall i :: i in s.locks && s.locks[i] != p ==> i in t.locks && t.locks[i] == s.locks[i]
    ensures Undisturbed(mayCompact, s, t, q)
  {
  }

  lemma TornWriteKeeps(c: Codec, mayCompact: set<Pid>, s: State, p: Pid, bytes: nat)
    requires Good(c) && Inv(c, mayCompact, s)
    requires Get(s, p).phase.CommitIndexed? && bytes < |LineOf(c, Get(s, p).phase.entry)|
    ensures Inv(c, mayCompact, StepWrite(c, s, p, bytes))
  {
    hide Inv, FileInv, HandleOk, LineOf, Conflicts, FileEntries, Undisturbed;
    var Proc(ph, h) := Get(s, p);
    var t := StepWrite(c, s, p, bytes);
    InvAt(c, mayCompact, s, p);
    AboutToWrite(c, mayCompact, s, p);
    WriteFileInv(c, mayCompact, s, p, bytes);
    LogInvOf(s, t);
    hide LogInv, ValidEntry;
    forall q: Pid | q != p ensures Undisturbed(mayCompact, s, t, q) {
      AppendUndisturbed(mayCompact, s, t, p, q, h.ino, LineOf(c, ph.entry)[..bytes]);
    }
    Assemble(c, mayCompact, s, t, p);
  }

  lemma WriteLogInv(s: State, t: State, e: Entry, cutoff: int)
    requires LogInv(s) && t.acks == s.acks && t.log == s.log + [Wrote(e, cutoff)]
    requires Unpruned(e) && !Conflicts(Replay(s.log), e)
    ensures LogInv(t)
  {
    hide Admissible, Conflicts;
    AdmissibleSnoc(s.log, Wrote(e, cutoff));
  }

  lemma FullWriteProc(c: Codec, mayCompact: set<Pid>, s: State, p: Pid, bytes: nat)
    requires LogInv(s) && ProcInv(c, mayCompact, s, p)
    requires Get(s, p).phase.CommitIndexed? && bytes >= |LineOf(c, Get(s, p).phase.entry)|
    ensures ProcInv(c, mayCompact, StepWrite(c, s, p, bytes), p)
  {
    hide FileInv, LineOf, Indexed, FileEntries, ValidEntry, Admissible, IndexMore;
    var Proc(ph, h) := Get(s, p);
    var t := StepWrite(c, s, p, bytes);
    HandleOkGrows(c, s.inodes, t.inodes, h);
    assert t.inodes[h.ino][..h.offset] == s.inodes[h.ino];
    hide HandleOk;
    assert Written(c, t, Get(t, p).phase, h);
  }

  lemma LineIsNotEmpty(c: Codec, e: Entry)
    ensures |LineOf(c, e)| > 0
  {
  }

  lemma FullWriteKeeps(c: Codec, mayCompact: set<Pid>, s: State, p: Pid, bytes: nat)
    requires Good(c) && Inv(c, mayCompact, s)
    requires Get(s, p).phase.CommitIndexed? && bytes >= |LineOf(c, Get(s, p).phase.entry)|
    ensures Inv(c, mayCompact, StepWrite(c, s, p, bytes))
  {
    hide Inv, FileInv, LineOf, Conflicts, FileEntries, ValidEntry, LogInv, ProcInv, Undisturbed;
    var Proc(ph, h) := Get(s, p);
    var t := StepWrite(c, s, p, bytes);
    InvAt(c, mayCompact, s, p);
    AboutToWrite(c, mayCompact, s, p);
    WriteFileInv(c, mayCompact, s, p, bytes);
    assert LineOf(c, ph.entry) != [] by { LineIsNotEmpty(c, ph.entry); }
    WriteLogInv(s, t, ph.entry, ph.cutoff);
    FullWriteProc(c, mayCompact, s, p, bytes);
    forall q: Pid | q != p ensures Undisturbed(mayCompact, s, t, q) {
      AppendUndisturbed(mayCompact, s, t, p, q, h.ino, LineOf(c, ph.entry));
    }
    Assemble(c, mayCompact, s, t, p);
  }

  lemma FinishLogInv(s: State, t: State, at: nat)
    requires LogInv(s) && t.log == s.log && t.acks == s.acks + [at]
    requires at < |s.log| && s.log[at].Wrote? && forall k :: 0 <= k < |s.acks| ==> s.acks[k] < at
    ensures LogInv(t)
  {
    hide Admissible;
  }

  lemma FinishKeeps(c: Codec, mayCompact: set<Pid>, s: State, p: Pid)
    requires Good(c) && Inv(c, mayCompact, s)
    ensures Inv(c, mayCompact, StepFinish(c, s, p))
  {
    hide Inv, ValidEntry, LineOf, HandleOk, FileInv, LogInv, ProcInv, Undisturbed;
    var ph := Get(s, p).phase;
    InvAt(c, mayCompact, s, p);
    if ph.CommitWritten? {
      var t := StepFinish(c, s, p);
      FinishProc(c, mayCompact, s, p);
      assert FileInv(c, t) by { FileInvOf(c, s, t); }
      forall q: Pid | q != p ensures Undisturbed(mayCompact, s, t, q) {
        FinishUndisturbed(c, mayCompact, s, p, q);
      }
      Assemble(c, mayCompact, s, t, p);
    }
  }

  lemma FinishProc(c: Codec, mayCompact: set<Pid>, s: State, p: Pid)
    requires Good(c) && LogInv(s) && ProcInv(c, mayCompact, s, p) && Get(s, p).phase.CommitWritten?
    ensures ProcInv(c, mayCompact, StepFinish(c, s, p), p) && LogInv(StepFinish(c, s, p))
  {
    hide ValidEntry, LineOf, FileEntries, IndexMore, FileInv;
    var Proc(ph, h) := Get(s, p);
    FinishedHandle(c, s, ph, h);
    FinishLogInv(s, StepFinish(c, s, p), ph.at);
    hide HandleOk, LogInv;
  }

  lemma FinishUndisturbed(c: Codec, mayCompact: set<Pid>, s: State, p: Pid, q: Pid)
    requires ProcInv(c, mayCompact, s, p) && Get(s, p).phase.CommitWritten? && q != p
    ensures Undisturbed(mayCompact, s, StepFinish(c, s, p), q)
  {
    hide ValidEntry, LineOf, HandleOk, Written;
  }

  lemma FileInvOf(c: Codec, s: State, t: State)
    requires FileInv(c, s) && t.inodes == s.inodes && t.path == s.path && t.log == s.log
    ensures FileInv(c, t)
  {
  }

  // After an acknowledged commit the handle indexes the whole file again.
  lemma FinishedHandle(c: Codec, s: State, ph: Phase, h: Handle)
    requires Good(c) && ph.CommitWritten? && HandleOk(c, s.inodes, h) && Written(c, s, ph, h)
    ensures HandleOk(c, s.inodes,
                     h.(offset := h.offset + |LineOf(c, ph.entry)|, index := IndexEntry(h.index, ph.entry)))
  {
    hide ParseAll, Complete, Tail, IndexMore, ValidEntry;
    var a := s.inodes[h.ino][..h.offset];
    AppendEntry(c, a, ph.entry);
    IndexSnoc(EMPTY_INDEX, FileEntries(c, a).value, ph.entry);
    assert s.inodes[h.ino][..h.offset + |LineOf(c, ph.entry)|] == s.inodes[h.ino];
  }

  // ---- Compacting --------------------------------------------------------

  lemma BuildKeeps(c: Codec, mayCompact: set<Pid>, s: State, p: Pid)
    requires Good(c) && Inv(c, mayCompact, s)
    ensures Inv(c, mayCompact, StepBuild(c, s, p))
  {
    hide Inv, FileEntries, PruneAll, EncodeAll, IndexMore, LogInv, FileInv, Compacted, HandleOk, Ended, Moved, ProcInv, Replay, Retained;
    var Proc(ph, h) := Get(s, p);
    InvAt(c, mayCompact, s, p);
    if ph.CompactIndexed? {
      FileIsRetained(c, mayCompact, s, p);
      var es := FileEntries(c, s.inodes[h.ino]).value;
      if PruneAll(es, ph.before) == es {
        EndedKeeps(c, mayCompact, s, p, Idle, h);
      } else {
        BuiltProc(c, mayCompact, s, p);
        var kept := Compacted(es, ph.before);
        MovedKeeps(c, mayCompact, s, p, CompactBuilt(ph.before, EncodeAll(c, kept), IndexOf(kept)), h);
      }
    }
  }

  // What a compactor that is caught up reads is the retained history.
  lemma FileIsRetained(c: Codec, mayCompact: set<Pid>, s: State, p: Pid)
    requires FileInv(c, s) && ProcInv(c, mayCompact, s, p) && Get(s, p).phase.CompactIndexed?
    ensures var h := Get(s, p).h;
            && h.ino < |s.inodes| && h.healthy && HandleOk(c, s.inodes, h)
            && FileEntries(c, s.inodes[h.ino]) == Some(Retained(Replay(s.log)))
  {
    hide ParseAll, Complete, Tail, Replay, Retained, IndexMore;
    var h := Get(s, p).h;
    assert s.inodes[h.ino][..h.offset] == s.inodes[h.ino];
  }

  lemma BuiltProc(c: Codec, mayCompact: set<Pid>, s: State, p: Pid)
    requires FileInv(c, s) && ProcInv(c, mayCompact, s, p) && Get(s, p).phase.CompactIndexed?
    ensures var Proc(ph, h) := Get(s, p);
            && h.ino < |s.inodes| && FileEntries(c, s.inodes[h.ino]).Some?
            && var kept := Compacted(FileEntries(c, s.inodes[h.ino]).value, ph.before);
               ProcInv(c, mayCompact, Moved(s, p, CompactBuilt(ph.before, EncodeAll(c, kept), IndexOf(kept)), h), p)
  {
    hide FileEntries, EncodeAll, IndexMore, LogInv, FileInv, Compacted, HandleOk, Replay, Retained;
    FileIsRetained(c, mayCompact, s, p);
    CompactRetained(Replay(s.log), Get(s, p).phase.before);
  }

  lemma RenamedFile(c: Codec, mayCompact: set<Pid>, s: State, p: Pid)
    requires Good(c) && FileInv(c, s) && ProcInv(c, mayCompact, s, p) && Get(s, p).phase.CompactBuilt?
    ensures FileInv(c, StepRename(s, p))
    ensures var t := StepRename(s, p); Renamed(c, t, Get(t, p).phase)
  {
    hide ParseAll, Complete, Tail, Replay, Retained, PruneAll, EncodeAll, IndexMore, LogInv;
    var Proc(ph, h) := Get(s, p);
    var t := StepRename(s, p);
    var kept := Compacted(Replay(s.log), ph.before);
    CompactRetained(Replay(s.log), ph.before);
    CompactedIsValid(Retained(Replay(s.log)), ph.before);
    RewriteRoundTrip(c, kept);
    ReplaySnoc(s.log, Pruned(ph.before));
    assert t.inodes[|s.inodes|] == ph.temp && ph.temp[..|ph.temp|] == ph.temp;
  }

  lemma RenameKeeps(c: Codec, mayCompact: set<Pid>, s: State, p: Pid)
    requires Good(c) && AtMostOne(mayCompact) && Inv(c, mayCompact, s)
    ensures Inv(c, mayCompact, StepRename(s, p))
  {
    hide Inv, FileInv, HandleOk, Renamed, Built, Admissible;
    var Proc(ph, h) := Get(s, p);
    InvAt(c, mayCompact, s, p);
    if ph.CompactBuilt? {
      var t := StepRename(s, p);
      RenamedFile(c, mayCompact, s, p);
      AdmissibleSnoc(s.log, Pruned(ph.before));
      assert LogInv(t);
      HandleOkGrows(c, s.inodes, t.inodes, h);
      hide LogInv;
      Assemble(c, mayCompact, s, t, p);
    }
  }

  lemma SwapKeeps(c: Codec, mayCompact: set<Pid>, s: State, p: Pid)
    requires Inv(c, mayCompact, s)
    ensures Inv(c, mayCompact, StepSwap(s, p))
  {
    hide Inv, HandleOk, FileInv, LogInv, Ended;
    var Proc(ph, h) := Get(s, p);
    InvAt(c, mayCompact, s, p);
    if ph.CompactRelocked? && ph.fd < |s.inodes| {
      if s.path != Some(ph.fd) || |s.inodes[ph.fd]| != ph.size {
        EndedKeeps(c, mayCompact, s, p, Idle, h.(healthy := false));
      } else {
        EndedKeeps(c, mayCompact, s, p, Idle, Handle(ph.fd, ph.size, ph.rebuilt, true));
      }
    }
  }

  // ---- Every step, every run --------------------------------------------

  // The remaining steps only take a lock, move to the next phase or give up.
  lemma LockingKeeps(c: Codec, mayCompact: set<Pid>, s: State, p: Pid, a: Action)
    requires Inv(c, mayCompact, s)
    requires a.LockOpen? || a.BeginCommit? || a.BeginCompact? || a.Relock?
    ensures Inv(c, mayCompact, Step(c, mayCompact, s, p, a))
  {
    hide Inv, HandleOk, FileInv, LogInv, LocalTo, ValidEntry;
    var Proc(ph, h) := Get(s, p);
    InvAt(c, mayCompact, s, p);
    var t := Step(c, mayCompact, s, p, a);
    if t != s {
      LockingIsLocal(s, p, if a.Relock? then ph.fd else h.ino, Get(t, p).phase);
      LocalKeeps(c, mayCompact, s, t, p);
    }
  }

  lemma CheckKeeps(c: Codec, mayCompact: set<Pid>, s: State, p: Pid)
    requires Inv(c, mayCompact, s)
    ensures Inv(c, mayCompact, StepCheck(s, p))
  {
    hide Inv, HandleOk, FileInv, LogInv, Ended, ValidEntry;
    var Proc(ph, h) := Get(s, p);
    InvAt(c, mayCompact, s, p);
    if ph.CommitLocked? || ph.CompactLocked? {
      if s.path != Some(h.ino) {
        EndedKeeps(c, mayCompact, s, p, Idle, h.(healthy := false));
      } else if ph.CommitLocked? {
        MovedKeeps(c, mayCompact, s, p, CommitChecked(ph.entry, ph.cutoff), h);
      } else {
        MovedKeeps(c, mayCompact, s, p, CompactChecked(ph.before), h);
      }
    }
  }

  lemma ReopenKeeps(c: Codec, mayCompact: set<Pid>, s: State, p: Pid)
    requires Inv(c, mayCompact, s)
    ensures Inv(c, mayCompact, StepReopen(s, p))
  {
    hide Inv, HandleOk, FileInv, LogInv;
    var Proc(ph, h) := Get(s, p);
    InvAt(c, mayCompact, s, p);
    if ph.CompactRenamed? && s.path.Some? {
      MovedKeeps(c, mayCompact, s, p, CompactReopened(s.path.value, ph.size, ph.rebuilt, ph.since), h);
    }
  }

  lemma StopKeeps(c: Codec, mayCompact: set<Pid>, s: State, p: Pid, a: Action)
    requires Inv(c, mayCompact, s) && (a.Fail? || a.Crash?)
    ensures Inv(c, mayCompact, Step(c, mayCompact, s, p, a))
  {
    hide Inv, HandleOk, Ended;
    var Proc(ph, h) := Get(s, p);
    EndedKeeps(c, mayCompact, s, p, Closed, h);
    EndedKeeps(c, mayCompact, s, p, Idle, h.(healthy := false));
  }

  lemma StepKeepsInv(c: Codec, mayCompact: set<Pid>, s: State, p: Pid, a: Action)
    requires Good(c) && AtMostOne(mayCompact) && Inv(c, mayCompact, s)
    ensures Inv(c, mayCompact, Step(c, mayCompact, s, p, a))
  {
    hide Inv, Ended, Moved, StepOpen, StepIndexOpen, StepReindex, StepWrite, StepFinish, StepBuild, StepRename,
      StepSwap, StepReopen, StepCheck, StepFail, AtMostOne, Locking;
    match a {
      case Open => OpenKeeps(c, mayCompact, s, p);
      case IndexOpen => IndexOpenKeeps(c, mayCompact, s, p);
      case CheckInode => CheckKeeps(c, mayCompact, s, p);
      case Reindex => ReindexKeeps(c, mayCompact, s, p);
      case Write(n) =>
        if Get(s, p).phase.CommitIndexed? {
          if n < |LineOf(c, Get(s, p).phase.entry)| {
            TornWriteKeeps(c, mayCompact, s, p, n);
          } else {
            FullWriteKeeps(c, mayCompact, s, p, n);
          }
        } else {
          assert StepWrite(c, s, p, n) == s by { WriteNeedsIndexed(c, s, p, n); }
        }
      case Finish => FinishKeeps(c, mayCompact, s, p);
      case Build => BuildKeeps(c, mayCompact, s, p);
      case Rename => RenameKeeps(c, mayCompact, s, p);
      case Reopen => ReopenKeeps(c, mayCompact, s, p);
      case Swap => SwapKeeps(c, mayCompact, s, p);
      case Fail => StopKeeps(c, mayCompact, s, p, a);
      case Crash => StopKeeps(c, mayCompact, s, p, a);
      case _ => LockingKeeps(c, mayCompact, s, p, a);
    }
  }

  lemma WriteNeedsIndexed(c: Codec, s: State, p: Pid, n: nat)
    requires !Get(s, p).phase.CommitIndexed?
    ensures StepWrite(c, s, p, n) == s
  {
  }

  lemma {:induction false} RunKeepsInv(c: Codec, mayCompact: set<Pid>, turns: seq<Turn>)
    requires Good(c) && AtMostOne(mayCompact)
    ensures Inv(c, mayCompact, Run(c, mayCompact, turns))
  {
    if turns != [] {
      RunKeepsInv(c, mayCompact, turns[..|turns| - 1]);
      var t := turns[|turns| - 1];
      StepKeepsInv(c, mayCompact, Run(c, mayCompact, turns[..|turns| - 1]), t.p, t.a);
    }
  }
}
