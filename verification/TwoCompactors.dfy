// What happens when two processes may compact: the size guard of a compactor
// can be met by a different file.
module TwoCompactors {
  import opened Optional
  import opened Lines
  import opened ReplaySet
  import opened ReplayLog
  import opened ReplayHistory
  import opened SharedStore
  import opened SoloRuns

  // z loses only its nonce at h1 and both keys at h2; b outlives both horizons;
  // the rewritten z and b happen to be equally long.
  ghost predicate Scenario(c: Codec, z: Entry, b: Entry, h1: int, h2: int) {
    && ValidEntry(z) && Unpruned(z) && ValidEntry(b) && Unpruned(b)
    && z.nonceKey != b.nonceKey && z.transferKey != b.transferKey
    && z.timestamp < h1 <= z.transferTimestamp < h2
    && h1 <= h2 <= b.timestamp && h2 <= b.transferTimestamp
    && |LineOf(c, Prune(z, h1))| == |LineOf(c, b)|
  }

  // p commits z and compacts as far as the rename.
  lemma FirstAct(c: Codec, mayCompact: set<Pid>, p: Pid, z: Entry, b: Entry, h1: int, h2: int)
    returns (turns: seq<Turn>, h: Handle)
    requires Good(c) && Scenario(c, z, b, h1, h2) && p in mayCompact
    ensures var z1 := Prune(z, h1);
            Run(c, mayCompact, turns) ==
            State([LineOf(c, z), LineOf(c, z1)], Some(1), map[0 := p],
                  map[p := Proc(CompactRenamed(|LineOf(c, z1)|, IndexOf([z1]), 2), h)],
                  [Wrote(z, z.timestamp), Pruned(h1)], [0])
  {
    hide Run, Steps, ParseAll, Complete, Tail, IndexMore, LineOf, ValidEntry, EncodeAll, Retained, PruneAll, Reread;
    var s0 := State([[]], Some(0), map[], map[p := Proc(Closed, Handle(0, 0, EMPTY_INDEX, false))], [], []);
    turns := [Turn(p, Open), Turn(p, Crash)];
    CreatedRun(c, mayCompact, p);
    EmptyFile(c);
    SoloOpen(c, mayCompact, s0, p);
    RunOn(c, mayCompact, turns, p, OPEN_ACTS);
    turns := turns + Turns(p, OPEN_ACTS);
    var ha := Handle(0, 0, EMPTY_INDEX, true);
    var sa := Run(c, mayCompact, turns);
    assert sa.procs == map[p := Proc(Idle, ha)];
    RereadNothing(c, sa.inodes[0], ha);
    SoloCommit(c, mayCompact, sa, p, ha, ha, z, z.timestamp);
    RunOn(c, mayCompact, turns, p, CommitActs(c, z, z.timestamp));
    turns := turns + Turns(p, CommitActs(c, z, z.timestamp));
    var sb := Run(c, mayCompact, turns);
    h := Handle(0, |LineOf(c, z)|, IndexEntry(EMPTY_INDEX, z), true);
    assert [] + LineOf(c, z) == LineOf(c, z);
    assert sb == State([LineOf(c, z)], Some(0), map[], map[p := Proc(Idle, h)], [Wrote(z, z.timestamp)], [0]);
    OneEntryFile(c, z);
    RereadNothing(c, sb.inodes[0], h);
    var z1 := Prune(z, h1);
    PruneOne(c, z, h1);
    SoloRewrite(c, mayCompact, sb, p, h, [z], h1);
    RunOn(c, mayCompact, turns, p, RewriteActs(h1));
    turns := turns + Turns(p, RewriteActs(h1));
    assert Run(c, mayCompact, turns).procs ==
           map[p := Proc(CompactRenamed(|LineOf(c, z1)|, IndexOf([z1]), 2), h)];
  }

  lemma PruneTwo(c: Codec, x: Entry, e: Entry, before: int)
    requires Dead(Prune(x, before)) && Prune(e, before) == e && !Dead(e) && !Dead(x)
    ensures PruneAll([x, e], before) != [x, e]
    ensures Compacted([x, e], before) == [e] && EncodeAll(c, [e]) == LineOf(c, e)
  {
    assert PruneAll([x, e], before)[0] == Prune(x, before);
    assert [x, e] == [x] + [e];
    CompactedSnoc([x], e, before);
    assert [x] == [] + [x];
    CompactedSnoc([], x, before);
    assert Compacted([], before) == [];
    assert [] + [e] == [e];
    OneEntry(c, e);
  }

  // Then q opens the new file, commits b and compacts to a third file.
  lemma SecondAct(c: Codec, mayCompact: set<Pid>, p: Pid, q: Pid, z: Entry, b: Entry, h1: int, h2: int)
    returns (turns: seq<Turn>, h: Handle)
    requires Good(c) && Scenario(c, z, b, h1, h2) && p in mayCompact && q in mayCompact && p != q
    ensures var z1 := Prune(z, h1);
            var s := Run(c, mayCompact, turns);
            && s.inodes == [LineOf(c, z), LineOf(c, z1) + LineOf(c, b), LineOf(c, b)]
            && s.path == Some(2) && s.locks == map[0 := p, 1 := q]
            && Get(s, p) == Proc(CompactRenamed(|LineOf(c, z1)|, IndexOf([z1]), 2), h)
            && s.log == [Wrote(z, z.timestamp), Pruned(h1), Wrote(b, h2), Pruned(h2)] && s.acks == [0, 2]
  {
    hide Run, Steps, ParseAll, Complete, Tail, IndexMore, LineOf, ValidEntry, EncodeAll, Retained, PruneAll, Reread;
    var z1 := Prune(z, h1);
    turns, h := FirstAct(c, mayCompact, p, z, b, h1, h2);
    var s0 := Run(c, mayCompact, turns);
    PrunedIsValid(z, h1);
    OneEntryFile(c, z1);
    OneEntry(c, z1);
    SoloOpen(c, mayCompact, s0, q);
    RunOn(c, mayCompact, turns, q, OPEN_ACTS);
    turns := turns + Turns(q, OPEN_ACTS);
    var ha := Handle(1, |LineOf(c, z1)|, IndexOf([z1]), true);
    var sa := Run(c, mayCompact, turns);
    RereadNothing(c, sa.inodes[1], ha);
    SoloCommit(c, mayCompact, sa, q, ha, ha, b, h2);
    RunOn(c, mayCompact, turns, q, CommitActs(c, b, h2));
    turns := turns + Turns(q, CommitActs(c, b, h2));
    var sb := Run(c, mayCompact, turns);
    var k := ha.(offset := ha.offset + |LineOf(c, b)|, index := IndexEntry(ha.index, b));
    assert sb.inodes == [LineOf(c, z), LineOf(c, z1) + LineOf(c, b)];
    AppendEntry(c, LineOf(c, z1), b);
    assert [z1] + [b] == [z1, b];
    RereadNothing(c, sb.inodes[1], k);
    PruneTwo(c, z1, b, h2);
    SoloRewrite(c, mayCompact, sb, q, k, [z1, b], h2);
    RunOn(c, mayCompact, turns, q, RewriteActs(h2));
    turns := turns + Turns(q, RewriteActs(h2));
    assert Run(c, mayCompact, turns).inodes == [LineOf(c, z), LineOf(c, z1) + LineOf(c, b), LineOf(c, b)];
  }

  lemma PrunedIsValid(e: Entry, before: int)
    requires ValidEntry(e) && !Dead(Prune(e, before))
    ensures ValidEntry(Prune(e, before))
  {
  }

  // As soon as two processes may compact, some interleaving accepts the same
  // entry twice, although no horizon ever passed either of its keys: the first
  // compactor adopts the second one's equally long file under its own index.
  lemma TwoCompactorsAcceptTwice(c: Codec, mayCompact: set<Pid>, p: Pid, q: Pid, z: Entry, b: Entry, h1: int, h2: int)
    returns (turns: seq<Turn>)
    requires Good(c) && Scenario(c, z, b, h1, h2) && p in mayCompact && q in mayCompact && p != q
    ensures var s := Run(c, mayCompact, turns);
            && s.log == [Wrote(z, z.timestamp), Pruned(h1), Wrote(b, h2), Pruned(h2), Wrote(b, h2)]
            && s.acks == [0, 2, 4]
            && HorizonContract(s.log) && FreshWrites(s.log)
  {
    hide Run, Steps, ParseAll, Complete, Tail, IndexMore, LineOf, ValidEntry, EncodeAll, Retained, PruneAll, Reread;
    var z1 := Prune(z, h1);
    var h;
    turns, h := SecondAct(c, mayCompact, p, q, z, b, h1, h2);
    var s0 := Run(c, mayCompact, turns);
    SoloAdopt(c, mayCompact, s0, p, h, |LineOf(c, z1)|, IndexOf([z1]), 2);
    RunOn(c, mayCompact, turns, p, ADOPT_ACTS);
    turns := turns + Turns(p, ADOPT_ACTS);
    var ha := Handle(2, |LineOf(c, z1)|, IndexOf([z1]), true);
    var sa := Run(c, mayCompact, turns);
    RereadNothing(c, sa.inodes[2], ha);
    OneEntry(c, z1);
    SoloCommit(c, mayCompact, sa, p, ha, ha, b, h2);
    RunOn(c, mayCompact, turns, p, CommitActs(c, b, h2));
    turns := turns + Turns(p, CommitActs(c, b, h2));
  }
}
