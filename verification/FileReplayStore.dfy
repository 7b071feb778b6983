// The durable replay store: one process's handle on the shared file.  What other
// processes do while a method holds its lock is a parameter of the method; all
// interleavings are the subject of SharedStore, whose steps these methods perform
// one after the other.
module FileReplayStore {
  import opened Optional
  import opened Lines
  import opened ReplaySet
  import opened ReplayLog
  import opened SharedStore
  import opened MemReplayStore

  // The part of the file system that the store touches.
  class Disk {
    var inodes: seq<Bytes>
    var path: Option<nat>

    constructor () ensures inodes == [] && path == None { inodes, path := [], None; }

    predicate Valid() reads this { path.Some? ==> path.value < |inodes| }
  }

  // The handle after its own line of the given length was appended.
  function Advanced(h: Handle, e: Entry, length: nat): Handle {
    h.(offset := h.offset + length, index := IndexEntry(h.index, e))
  }

  // What a write of which the operating system takes so many bytes leaves behind.
  function Taken(line: Bytes, written: nat): Bytes { if written < |line| then line[..written] else line }

  // What a commit of e through handle h meets: a store it can decide on, and
  // then an index with or without one of its keys.
  predicate Decides(c: Codec, inodes: seq<Bytes>, path: Option<nat>, h: Handle, e: Entry) {
    && ValidEntry(e) && h.healthy && path == Some(h.ino) && h.ino < |inodes| && Reread(c, inodes[h.ino], h).Some?
  }

  predicate Knows(c: Codec, inodes: seq<Bytes>, path: Option<nat>, h: Handle, e: Entry) {
    Decides(c, inodes, path, h, e) && Indexed(Reread(c, inodes[h.ino], h).value.index, e)
  }

  predicate Admits(c: Codec, inodes: seq<Bytes>, path: Option<nat>, h: Handle, e: Entry) {
    Decides(c, inodes, path, h, e) && !Indexed(Reread(c, inodes[h.ino], h).value.index, e)
  }

  // What disturbs a compaction: an I/O error, or another process that appends to
  // the renamed file, or renames its own file over it, before it is open and
  // locked again.
  datatype Fault = NoFault | BeforeRename | AfterRename | Appended(bytes: Bytes) | Replaced(content: Bytes)

  // The inodes once a compaction has renamed temp into place; the path names the
  // last of them.
  function Aftermath(inodes: seq<Bytes>, temp: Bytes, fault: Fault): (r: seq<Bytes>)
    ensures |r| > |inodes|
  {
    match fault
    case Appended(bytes) => inodes + [temp + bytes]
    case Replaced(content) => inodes + [temp, content]
    case _ => inodes + [temp]
  }

  // The size guard after the reopen.
  predicate Undetected(temp: Bytes, fault: Fault) {
    match fault
    case NoFault => true
    case Appended(bytes) => bytes == []
    case Replaced(content) => |content| == |temp|
    case _ => false
  }

  class FileReplayStore {
    const codec: Codec
    const disk: Disk
    var ino: nat
    var nonces: map<NonceKey, int>
    var transfers: map<TransferKey, int>
    var readOffset: nat
    var healthy: bool

    function H(): Handle reads this { Handle(ino, readOffset, Index(nonces, transfers), healthy) }

    predicate Attached() reads this, disk { ino < |disk.inodes| }

    constructor (codec: Codec, disk: Disk, ino: nat)
      ensures this.codec == codec && this.disk == disk && H() == Handle(ino, 0, EMPTY_INDEX, false)
    {
      this.codec, this.disk, this.ino := codec, disk, ino;
      nonces, transfers, readOffset, healthy := map[], map[], 0, false;
    }

    // OpenFileReplayStore: create the file if needed, index all of it, or fail.
    static method Open(codec: Codec, disk: Disk) returns (store: FileReplayStore?)
      requires disk.Valid()
      modifies disk
      ensures disk.Valid() && disk.path.Some?
      ensures old(disk.path.Some?) ==> disk.inodes == old(disk.inodes) && disk.path == old(disk.path)
      ensures old(disk.path.None?) ==> disk.inodes == old(disk.inodes) + [[]] && disk.path == Some(|old(disk.inodes)|)
      ensures store != null <==> FileEntries(codec, disk.inodes[disk.path.value]).Some?
      ensures store != null ==>
        var content := disk.inodes[disk.path.value];
        && fresh(store) && store.codec == codec && store.disk == disk
        && store.H() == Handle(disk.path.value, |content|, IndexOf(FileEntries(codec, content).value), true)
    {
      if disk.path.None? {
        disk.inodes, disk.path := disk.inodes + [[]], Some(|disk.inodes|);
      }
      var s := new FileReplayStore(codec, disk, disk.path.value);
      ghost var h := s.H();
      ghost var content := disk.inodes[disk.path.value];
      assert HandleOk(codec, disk.inodes, h) by {
        assert content[..0] == [];
        EmptyFile(codec);
      }
      RereadCatchesUp(codec, disk.inodes, h);
      var ok := s.ReindexLocked();
      if !ok { return null; }
      s.healthy := true;
      return s;
    }

    // Index every complete line after readOffset; fail on a shrunken file, a
    // corrupt line or an incomplete last line.
    method ReindexLocked() returns (ok: bool)
      requires Attached()
      modifies this
      ensures ino == old(ino) && healthy == old(healthy)
      ensures ok <==> Reread(codec, disk.inodes[ino], old(H())).Some?
      ensures ok ==> Some(H()) == Reread(codec, disk.inodes[ino], old(H()))
    {
      hide ParseAll, Complete, Tail, IndexMore, ParseLine, FirstNewline, ValidEntry;
      var content := disk.inodes[ino];
      if |content| < readOffset { return false; }
      var rest := content[readOffset..];
      ghost var all := rest;
      ghost var done: seq<Bytes>, es: seq<Entry> := [], [];
      UnreadStart(codec, all, old(H()).index);
      while true
        invariant ino == old(ino) && healthy == old(healthy)
        invariant readOffset + |rest| == |content|
        invariant Complete(all) == done + Complete(rest) && Tail(all) == Tail(rest)
        invariant ParseAll(codec, done) == Some(es)
        invariant H().index == IndexMore(old(H()).index, es)
        decreases |rest|
      {
        var i := FirstNewline(rest);
        UnfoldSplit(rest);
        if i < 0 {
          ParseConcat(codec, done, Complete(rest));
          assert done + [] == done;
          return rest == [];
        }
        ReadOneLine(codec, done, es, old(H()).index, rest, i);
        match ParseLine(codec, rest[..i]) {
          case None => return false;
          case Some(entry) =>
            IndexLine(entry);
            es := es + [entry];
        }
        readOffset := readOffset + i + 1;
        done, rest := done + [rest[..i]], rest[i + 1..];
      }
    }

    // A pruned key is not restored.
    method IndexLine(entry: Entry)
      modifies this
      ensures H() == old(H()).(index := IndexEntry(old(H()).index, entry))
    {
      if !entry.noncePruned { nonces := nonces[entry.nonceKey := entry.timestamp]; }
      if !entry.transferPruned { transfers := transfers[entry.transferKey := entry.transferTimestamp]; }
    }

    // written: how many bytes of the line the operating system takes; rival: the
    // inode that somebody renames onto the path while the line is being written.
    method CommitIfNew(e: Entry, written: nat, rival: Option<nat>) returns (r: CommitResult)
      requires Attached() && Unpruned(e)
      modifies this, disk
      ensures ino == old(ino)
      ensures r == if !ValidEntry(e) then Malformed
                   else if Knows(codec, old(disk.inodes), old(disk.path), old(H()), e) then ReplayConflict
                   else if Admits(codec, old(disk.inodes), old(disk.path), old(H()), e)
                           && written >= |LineOf(codec, e)| && (rival.None? || rival == Some(ino)) then Committed
                   else StoreFailure
      // The file changes only when the entry is admitted, and then by a prefix of
      // its line, the whole line when the commit succeeds.
      ensures disk.inodes == if !Admits(codec, old(disk.inodes), old(disk.path), old(H()), e) then old(disk.inodes)
                             else old(disk.inodes)[ino := old(disk.inodes[ino]) + Taken(LineOf(codec, e), written)]
      ensures disk.path == if Admits(codec, old(disk.inodes), old(disk.path), old(H()), e) && rival.Some?
                              && written >= |LineOf(codec, e)| then rival else old(disk.path)
      ensures r == StoreFailure ==> !healthy
      ensures r == Malformed || !old(healthy) ==> H() == old(H())
      ensures r == ReplayConflict ==> Some(H()) == Reread(codec, old(disk.inodes[ino]), old(H()))
      ensures r == Committed ==>
                H() == Advanced(Reread(codec, old(disk.inodes[ino]), old(H())).value, e, |LineOf(codec, e)|)
    {
      hide ValidEntry, Reread, LineOf;
      if !ValidEntry(e) { return Malformed; }
      if !healthy { return StoreFailure; }
      if disk.path != Some(ino) {
        healthy := false;
        return StoreFailure;
      }
      RereadKeepsInode(codec, disk.inodes[ino], H());
      var ok := ReindexLocked();
      if !ok {
        healthy := false;
        return StoreFailure;
      }
      if e.nonceKey in nonces || e.transferKey in transfers { return ReplayConflict; }
      var line := LineOf(codec, e);
      disk.inodes := disk.inodes[ino := disk.inodes[ino] + Taken(line, written)];
      if written < |line| {
        healthy := false;
        return StoreFailure;
      }
      if rival.Some? { disk.path := rival; }
      if disk.path != Some(ino) {
        healthy := false;
        return StoreFailure;
      }
      nonces := nonces[e.nonceKey := e.timestamp];
      transfers := transfers[e.transferKey := e.transferTimestamp];
      readOffset := readOffset + |line|;
      return Committed;
    }

    // Rewrites the file without the keys before the horizon.  None is an error.
    method Compact(before: int, fault: Fault) returns (removed: Option<nat>)
      requires Attached() && disk.Valid() && (healthy ==> HandleOk(codec, disk.inodes, H()))
      modifies this, disk
      ensures disk.Valid()
      ensures removed.None? ==> !healthy
      ensures removed.Some? <==>
        && old(healthy) && old(disk.path) == Some(old(ino)) && FileEntries(codec, old(disk.inodes[ino])).Some?
        && !fault.BeforeRename?
        && var es := FileEntries(codec, old(disk.inodes[ino])).value;
           PruneAll(es, before) == es || Undetected(EncodeAll(codec, Compacted(es, before)), fault)
      ensures removed.Some? ==>
        var es := FileEntries(codec, old(disk.inodes[ino])).value;
        var kept := Compacted(es, before);
        && removed.value == RemovedCount(es, before)
        && if PruneAll(es, before) == es
           then disk.inodes == old(disk.inodes) && disk.path == old(disk.path)
                && ino == old(ino) && healthy && readOffset == |disk.inodes[ino]| && H().index == IndexOf(es)
           else disk.inodes == Aftermath(old(disk.inodes), EncodeAll(codec, kept), fault)
                && disk.path == Some(|disk.inodes| - 1)
                && H() == Handle(|disk.inodes| - 1, |EncodeAll(codec, kept)|, IndexOf(kept), true)
      // An error leaves either the old file or what followed a complete rename.
      ensures removed.None? ==>
        || (disk.inodes == old(disk.inodes) && disk.path == old(disk.path))
        || (FileEntries(codec, old(disk.inodes[ino])).Some? && disk.path == Some(|disk.inodes| - 1)
            && disk.inodes == Aftermath(old(disk.inodes),
                                        EncodeAll(codec, Compacted(FileEntries(codec, old(disk.inodes[ino])).value, before)), fault))
    {
      hide ParseAll, Complete, Tail, IndexMore, ParseLine, Reread, PruneAll, Retained, EncodeAll, RemovedCount, HandleOk;
      removed := None;
      if !healthy || disk.path != Some(ino) {
        healthy := false;
        return;
      }
      RereadCatchesUp(codec, disk.inodes, H());
      var ok := ReindexLocked();
      if !ok || fault.BeforeRename? {
        healthy := false;
        return;
      }
      var temp, rebuilt, count, changed := Rewrite(disk.inodes[ino], before);
      if count == 0 && !changed {
        return Some(0);
      }
      disk.inodes := Aftermath(disk.inodes, temp, fault);
      disk.path := Some(|disk.inodes| - 1);
      if fault.AfterRename? || |disk.inodes[disk.path.value]| != |temp| {
        healthy := false;
        return;
      }
      ino, readOffset := disk.path.value, |temp|;
      nonces, transfers := rebuilt.nonces, rebuilt.transfers;
      return Some(count);
    }

    // The rewriting loop of a compaction, over a file that is known to be whole.
    method Rewrite(content: Bytes, before: int) returns (temp: Bytes, rebuilt: Index, removed: nat, changed: bool)
      requires FileEntries(codec, content).Some?
      ensures var es := FileEntries(codec, content).value;
              && temp == EncodeAll(codec, Compacted(es, before))
              && rebuilt == IndexOf(Compacted(es, before))
              && removed == RemovedCount(es, before)
              && (removed == 0 && !changed <==> PruneAll(es, before) == es)
    {
      hide ParseAll, Complete, Tail, IndexMore, ParseLine, PruneAll, Retained, EncodeAll, RemovedCount;
      temp, rebuilt, removed, changed := [], EMPTY_INDEX, 0, false;
      var rest := content;
      ghost var done: seq<Bytes>, es: seq<Entry> := [], [];
      UnreadStart(codec, content, EMPTY_INDEX);
      RewriteStart(codec, before);
      while rest != []
        invariant Complete(content) == done + Complete(rest) && Tail(rest) == []
        invariant ParseAll(codec, done) == Some(es)
        invariant temp == EncodeAll(codec, Compacted(es, before))
        invariant rebuilt == IndexOf(Compacted(es, before))
        invariant removed == RemovedCount(es, before)
        invariant removed == 0 && !changed <==> PruneAll(es, before) == es
        decreases |rest|
      {
        var i := FirstNewline(rest);
        UnfoldSplit(rest);
        assert i >= 0;
        ReadOneLine(codec, done, es, EMPTY_INDEX, rest, i);
        ParseConcat(codec, done + [rest[..i]], Complete(rest[i + 1..]));
        assert Complete(content) == (done + [rest[..i]]) + Complete(rest[i + 1..]);
        var entry := ParseLine(codec, rest[..i]).value;
        RewriteOne(codec, es, entry, before);
        var keepNonce := !entry.noncePruned && entry.timestamp >= before;
        var keepTransfer := !entry.transferPruned && entry.transferTimestamp >= before;
        if !keepNonce && !keepTransfer {
          removed := removed + 1;
        } else {
          changed := changed || entry.noncePruned != !keepNonce || entry.transferPruned != !keepTransfer;
          var pruned := entry.(noncePruned := !keepNonce, transferPruned := !keepTransfer);
          temp := temp + LineOf(codec, pruned);
          rebuilt := Index(if keepNonce then rebuilt.nonces[entry.nonceKey := entry.timestamp] else rebuilt.nonces,
                           if keepTransfer then rebuilt.transfers[entry.transferKey := entry.transferTimestamp] else rebuilt.transfers);
        }
        es, done, rest := es + [entry], done + [rest[..i]], rest[i + 1..];
      }
      UnfoldSplit(rest);
      assert done + [] == done;
    }
  }

  lemma UnreadStart(c: Codec, s: Bytes, ix: Index)
    ensures Complete(s) == [] + Complete(s) && ParseAll(c, []) == Some([]) && IndexMore(ix, []) == ix
  {
  }

  lemma ReadOneLine(c: Codec, done: seq<Bytes>, es: seq<Entry>, ix: Index, rest: Bytes, i: nat)
    requires ParseAll(c, done) == Some(es) && i == FirstNewline(rest)
    ensures done + Complete(rest) == (done + [rest[..i]]) + Complete(rest[i + 1..])
    ensures Tail(rest) == Tail(rest[i + 1..])
    ensures match ParseLine(c, rest[..i])
            case None => ParseAll(c, done + Complete(rest)).None?
            case Some(e) => ParseAll(c, done + [rest[..i]]) == Some(es + [e])
                            && IndexMore(ix, es + [e]) == IndexEntry(IndexMore(ix, es), e)
                            && ValidEntry(e)
  {
    hide ParseLine, Complete, Tail, ParseAll, IndexMore, FirstNewline;
    UnfoldSplit(rest);
    assert done + ([rest[..i]] + Complete(rest[i + 1..])) == (done + [rest[..i]]) + Complete(rest[i + 1..]);
    ParseOne(c, rest[..i]);
    ParseConcat(c, done, [rest[..i]]);
    ParseConcat(c, done + [rest[..i]], Complete(rest[i + 1..]));
    if ParseLine(c, rest[..i]).Some? {
      IndexSnoc(ix, es, ParseLine(c, rest[..i]).value);
      assert ParseAll(c, [rest[..i]]).value[0] == ParseLine(c, rest[..i]).value;
    }
  }

  lemma RewriteStart(c: Codec, before: int)
    ensures EncodeAll(c, Compacted([], before)) == [] && IndexOf(Compacted([], before)) == EMPTY_INDEX
    ensures RemovedCount([], before) == 0 && PruneAll([], before) == []
  {
  }

  lemma RewriteOne(c: Codec, es: seq<Entry>, e: Entry, before: int)
    requires ValidEntry(e)
    ensures var kept := Compacted(es, before);
            var x := Prune(e, before);
            && Compacted(es + [e], before) == (if Dead(x) then kept else kept + [x])
            && EncodeAll(c, Compacted(es + [e], before)) ==
               (if Dead(x) then EncodeAll(c, kept) else EncodeAll(c, kept) + LineOf(c, x))
            && IndexOf(Compacted(es + [e], before)) == (if Dead(x) then IndexOf(kept) else IndexEntry(IndexOf(kept), x))
            && RemovedCount(es + [e], before) == RemovedCount(es, before) + (if Dead(x) then 1 else 0)
            && (PruneAll(es + [e], before) == es + [e] <==> PruneAll(es, before) == es && x == e)
  {
    hide PruneAll, ValidEntry;
    var kept, x := Compacted(es, before), Prune(e, before);
    CompactedSnoc(es, e, before);
    PruneAllSnoc(es, e, before);
    assert (es + [e])[..|es|] == es;
    assert (kept + [x])[..|kept|] == kept;
    IndexSnoc(EMPTY_INDEX, kept, x);
    assert !Dead(e) by { ValidIsLive(e); }
    if PruneAll(es + [e], before) == es + [e] {
      assert (PruneAll(es, before) + [x])[..|es|] == PruneAll(es, before) == es;
      assert (PruneAll(es, before) + [x])[|es|] == x;
    }
  }

  lemma ValidIsLive(e: Entry)
    requires ValidEntry(e)
    ensures !Dead(e)
  {
  }
}
