// The two store classes driven through any sequence of commits, compactions and
// restarts: what the objects answer is what the replay set answers.
module StoreRuns {
  import opened Optional
  import opened Lines
  import opened ReplaySet
  import opened ReplayLog
  import opened SharedStore
  import opened MemReplayStore
  import opened FileReplayStore
  import opened StoreEquivalence

  // The handle is open on the file at the path and its maps index all of it.
  ghost predicate InStep(store: FileReplayStore)
    reads store, store.disk
  {
    && store.disk.path.Some? && store.disk.path.value < |store.disk.inodes|
    && var content := store.disk.inodes[store.disk.path.value];
       && FileEntries(store.codec, content).Some?
       && store.H() == Handle(store.disk.path.value, |content|, IndexOf(FileEntries(store.codec, content).value), true)
  }

  ghost function Content(store: FileReplayStore): Bytes
    requires InStep(store)
    reads store, store.disk
  {
    store.disk.inodes[store.disk.path.value]
  }

  // One operation on the object; a restart opens a new handle on the same file.
  method Perform(store: FileReplayStore, op: Op) returns (answer: Answer, next: FileReplayStore)
    requires Good(store.codec) && InStep(store) && (op.Commit? ==> Unpruned(op.entry))
    modifies store, store.disk
    ensures InStep(next) && next.codec == store.codec && next.disk == store.disk && (next == store || fresh(next))
    ensures (answer, Content(next)) == FileStep(store.codec, old(Content(store)), op)
  {
    hide FileEntries, IndexMore, ValidEntry, LineOf, EncodeAll, PruneAll, Compacted, RemovedCount, Reread, HandleOk;
    next := store;
    ghost var c, content, ino := store.codec, Content(store), store.ino;
    ghost var es := FileEntries(c, content).value;
    UpToDate(c, store.disk.inodes, store.H());
    match op {
      case Commit(e) =>
        var written := |LineOf(store.codec, e)|;
        var r := store.CommitIfNew(e, written, None);
        if r == Committed {
          Appended(c, content, e);
        }
        answer := Result(r);
      case Compact(before) =>
        var removed := store.Compact(before, NoFault);
        CompactedReads(c, content, before);
        answer := Removed(removed.value);
      case Restart =>
        var reopened := FileReplayStore.Open(store.codec, store.disk);
        next, answer := reopened, Restarted;
    }
  }

  lemma UpToDate(c: Codec, inodes: seq<Bytes>, h: Handle)
    requires h.ino < |inodes| && h.offset == |inodes[h.ino]| && FileEntries(c, inodes[h.ino]).Some?
    requires h.index == IndexOf(FileEntries(c, inodes[h.ino]).value)
    ensures HandleOk(c, inodes, h) && Reread(c, inodes[h.ino], h) == Some(h)
  {
    var content := inodes[h.ino];
    assert content[..|content|] == content && content[|content|..] == [];
    EmptyFile(c);
    assert IndexMore(h.index, []) == h.index;
  }

  lemma Appended(c: Codec, content: Bytes, e: Entry)
    requires Good(c) && ValidEntry(e) && FileEntries(c, content).Some?
    ensures var es := FileEntries(c, content).value;
            && FileEntries(c, content + LineOf(c, e)) == Some(es + [e])
            && IndexOf(es + [e]) == IndexEntry(IndexOf(es), e)
  {
    AppendEntry(c, content, e);
    IndexSnoc(EMPTY_INDEX, FileEntries(c, content).value, e);
  }

  lemma CompactedReads(c: Codec, content: Bytes, before: int)
    requires Good(c) && FileEntries(c, content).Some?
    ensures var kept := Compacted(FileEntries(c, content).value, before);
            FileEntries(c, EncodeAll(c, kept)) == Some(kept)
  {
    var es := FileEntries(c, content).value;
    CompactedIsValid(es, before);
    RewriteRoundTrip(c, Compacted(es, before));
  }

  // A fresh file store, driven through the whole sequence, answers as the
  // replay set does, whatever the horizons and wherever it is restarted.
  method RunFileStore(c: Codec, ops: seq<Op>) returns (answers: seq<Answer>)
    requires Good(c) && UnprunedCommits(ops)
    ensures answers == RefRun(ops).0
  {
    hide FileEntries, FileStep, RefStep, Good;
    var disk := new Disk();
    EmptyFileReads(c);
    var store := FileReplayStore.Open(c, disk);
    answers := [];
    assert ops[..0] == [];
    for i := 0 to |ops|
      invariant store != null && fresh(store) && fresh(disk) && store.disk == disk && store.codec == c
      invariant InStep(store)
      invariant (answers, Content(store)) == FileRun(c, ops[..i])
    {
      assert ops[..i + 1][..i] == ops[..i];
      var answer;
      answer, store := Perform(store, ops[i]);
      answers := answers + [answer];
    }
    assert ops[..|ops|] == ops;
    FileRefinesReplaySet(c, ops);
  }

  lemma EmptyFileReads(c: Codec)
    ensures FileEntries(c, []) == Some([])
  {
  }

  // So does a fresh in-memory store, as long as horizons do not decrease.
  method RunMemStore(ops: seq<Op>) returns (answers: seq<Answer>)
    requires UnprunedCommits(ops) && NondecreasingHorizons(ops)
    ensures answers == RefRun(ops).0
  {
    hide MemCommit, MemCompact, RefStep, ValidEntry;
    var store := new MemReplayStore();
    answers := [];
    assert ops[..0] == [];
    for i := 0 to |ops|
      invariant fresh(store)
      invariant (answers, store.View()) == MemRun(ops[..i])
    {
      assert ops[..i + 1][..i] == ops[..i];
      match ops[i] {
        case Commit(e) =>
          var r := store.CommitIfNew(e);
          answers := answers + [Result(r)];
        case Compact(before) =>
          var removed := store.Compact(before);
          answers := answers + [Removed(removed)];
        case Restart =>
          answers := answers + [Restarted];
      }
    }
    assert ops[..|ops|] == ops;
    var _ := MemRefinesReplaySet(ops);
  }
}
