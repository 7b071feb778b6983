// Replay protection end to end: the verifier, the compaction contract, crashes
// and interleavings together.
module ReplayProtection {
  import opened Optional
  import opened Lines
  import opened ReplaySet
  import opened ReplayLog
  import opened ReplayHistory
  import opened SharedStore
  import opened Counterparty
  import opened SoloRuns

  // Every commit in the run is the last step of some verification, whose
  // freshness cutoff travels with it.
  ghost predicate FromVerifier(cr: Crypto, reqs: set<Request>, turns: seq<Turn>) {
    forall i :: 0 <= i < |turns| && turns[i].a.BeginCommit? ==> Behind(cr, reqs, turns[i].a.entry, turns[i].a.cutoff)
  }

  ghost predicate Behind(cr: Crypto, reqs: set<Request>, e: Entry, cutoff: int) {
    exists r :: r in reqs && Appraise(cr, r) == Ok(e) && cutoff == r.now - r.maxAge
  }

  ghost predicate AllBehind(cr: Crypto, reqs: set<Request>, s: State) {
    && (forall j :: 0 <= j < |s.log| && s.log[j].Wrote? ==> Behind(cr, reqs, s.log[j].entry, s.log[j].cutoff))
    && (forall p: Pid :: Committing(Get(s, p).phase) ==> Behind(cr, reqs, Get(s, p).phase.entry, Get(s, p).phase.cutoff))
  }

  lemma StepKeepsOrigin(c: Codec, mayCompact: set<Pid>, cr: Crypto, reqs: set<Request>, s: State, p: Pid, a: Action)
    requires AllBehind(cr, reqs, s)
    requires a.BeginCommit? ==> Behind(cr, reqs, a.entry, a.cutoff)
    ensures AllBehind(cr, reqs, Step(c, mayCompact, s, p, a))
  {
    hide ParseAll, FileEntries, PruneAll, Compacted, EncodeAll, IndexMore, ValidEntry, LineOf, Behind, Reread, Indexed,
      Release;
    var t := Step(c, mayCompact, s, p, a);
    OnlySelf(c, mayCompact, s, p, a);
    OwnPhase(c, mayCompact, s, p, a);
    hide Step;
  }

  // A step leaves the other processes where they are.
  lemma OnlySelf(c: Codec, mayCompact: set<Pid>, s: State, p: Pid, a: Action)
    ensures forall q: Pid :: q != p ==> Get(Step(c, mayCompact, s, p, a), q) == Get(s, q)
  {
    hide ParseAll, FileEntries, PruneAll, Compacted, EncodeAll, IndexMore, ValidEntry, LineOf, Reread, Indexed, Release;
  }

  // Where p's entry comes from, and what a step adds to the log.
  lemma OwnPhase(c: Codec, mayCompact: set<Pid>, s: State, p: Pid, a: Action)
    ensures var (was, now) := (Get(s, p).phase, Get(Step(c, mayCompact, s, p, a), p).phase);
            var t := Step(c, mayCompact, s, p, a);
            && (Committing(now) ==>
                  || (Committing(was) && now.entry == was.entry && now.cutoff == was.cutoff)
                  || (a.BeginCommit? && now.entry == a.entry && now.cutoff == a.cutoff))
            && (|| t.log == s.log
                || (exists before :: t.log == s.log + [Pruned(before)])
                || (Committing(was) && t.log == s.log + [Wrote(was.entry, was.cutoff)]))
  {
    hide ParseAll, FileEntries, PruneAll, Compacted, EncodeAll, IndexMore, ValidEntry, LineOf, Reread, Indexed, Release;
  }

  lemma {:induction false} RunOrigin(c: Codec, mayCompact: set<Pid>, cr: Crypto, reqs: set<Request>, turns: seq<Turn>)
    requires FromVerifier(cr, reqs, turns)
    ensures AllBehind(cr, reqs, Run(c, mayCompact, turns))
  {
    hide Step, Behind;
    if turns != [] {
      var init, t := turns[..|turns| - 1], turns[|turns| - 1];
      RunOrigin(c, mayCompact, cr, reqs, init);
      StepKeepsOrigin(c, mayCompact, cr, reqs, Run(c, mayCompact, init), t.p, t.a);
    }
  }

  // In every run of any number of processes, with crashes, at most one of them
  // compacting, and each applied horizon no newer than the freshness cutoff of
  // every verification that commits after it: no transfer and no signed record
  // takes effect twice.  In particular no two acknowledged verifications share one.
  lemma NothingPassesTwice(c: Codec, mayCompact: set<Pid>, cr: Crypto, reqs: set<Request>, turns: seq<Turn>,
                           i: nat, j: nat, r1: Request, r2: Request)
    requires Good(c) && AtMostOne(mayCompact) && Injective(cr) && FromVerifier(cr, reqs, turns)
    requires HorizonContract(Run(c, mayCompact, turns).log)
    requires i < j < |Run(c, mayCompact, turns).log|
    requires var log := Run(c, mayCompact, turns).log;
             log[i].Wrote? && log[j].Wrote? && Appraise(cr, r1) == Ok(log[i].entry) && Appraise(cr, r2) == Ok(log[j].entry)
    ensures var log := Run(c, mayCompact, turns).log;
            log[i].entry.transferKey != log[j].entry.transferKey && r1.record != r2.record
  {
    hide Run, Appraise, Admissible, HorizonContract, ProcInv, FileInv, Injective;
    var s := Run(c, mayCompact, turns);
    RunKeepsInv(c, mayCompact, turns);
    RunOrigin(c, mayCompact, cr, reqs, turns);
    CommitsAreFresh(cr, reqs, s);
    ReuseNeedsNewerTime(s.log, i, j);
    AppraisalIsFresh(cr, r1);
    AppraisalIsFresh(cr, r2);
    if s.log[i].entry.transferKey == s.log[j].entry.transferKey {
      TransferFixesItsTime(cr, r1, r2);
    }
  }

  lemma CommitsAreFresh(cr: Crypto, reqs: set<Request>, s: State)
    requires AllBehind(cr, reqs, s)
    ensures FreshWrites(s.log)
  {
    hide Appraise;
    forall j | 0 <= j < |s.log| && s.log[j].Wrote?
      ensures s.log[j].cutoff <= s.log[j].entry.timestamp && s.log[j].cutoff <= s.log[j].entry.transferTimestamp
    {
      var r :| r in reqs && Appraise(cr, r) == Ok(s.log[j].entry) && s.log[j].cutoff == r.now - r.maxAge;
      AppraisalIsFresh(cr, r);
    }
  }

  // The same for acknowledged commits: two acknowledgements are two different
  // writes, so the verifications behind them concern different transfers and
  // different records.
  lemma AcknowledgedPassesDiffer(c: Codec, mayCompact: set<Pid>, cr: Crypto, reqs: set<Request>, turns: seq<Turn>, k: nat, l: nat)
    requires Good(c) && AtMostOne(mayCompact) && Injective(cr) && FromVerifier(cr, reqs, turns)
    requires HorizonContract(Run(c, mayCompact, turns).log)
    requires k < l < |Run(c, mayCompact, turns).acks|
    ensures var s := Run(c, mayCompact, turns);
            && s.acks[k] < s.acks[l] < |s.log| && s.log[s.acks[k]].Wrote? && s.log[s.acks[l]].Wrote?
            && s.log[s.acks[k]].entry.transferKey != s.log[s.acks[l]].entry.transferKey
            && forall r1, r2 :: Appraise(cr, r1) == Ok(s.log[s.acks[k]].entry) && Appraise(cr, r2) == Ok(s.log[s.acks[l]].entry)
                                ==> r1.record != r2.record
  {
    hide Run, Appraise, Admissible, HorizonContract, ProcInv, FileInv, Injective, FromVerifier;
    var s := Run(c, mayCompact, turns);
    RunKeepsInv(c, mayCompact, turns);
    RunOrigin(c, mayCompact, cr, reqs, turns);
    var e1, e2 := s.log[s.acks[k]], s.log[s.acks[l]];
    var r1 :| r1 in reqs && Appraise(cr, r1) == Ok(e1.entry);
    var r2 :| r2 in reqs && Appraise(cr, r2) == Ok(e2.entry);
    NothingPassesTwice(c, mayCompact, cr, reqs, turns, s.acks[k], s.acks[l], r1, r2);
    forall r1, r2 | Appraise(cr, r1) == Ok(e1.entry) && Appraise(cr, r2) == Ok(e2.entry) ensures r1.record != r2.record {
      NothingPassesTwice(c, mayCompact, cr, reqs, turns, s.acks[k], s.acks[l], r1, r2);
    }
  }

  // ---- Verifications in flight ------------------------------------------

  lemma FromVerifierConcat(cr: Crypto, reqs: set<Request>, a: seq<Turn>, b: seq<Turn>)
    requires FromVerifier(cr, reqs, a) && FromVerifier(cr, reqs, b)
    ensures FromVerifier(cr, reqs, a + b)
  {
    hide Behind;
  }

  lemma TurnsFromVerifier(cr: Crypto, reqs: set<Request>, p: Pid, acts: seq<Action>)
    requires forall i :: 0 <= i < |acts| && acts[i].BeginCommit? ==> Behind(cr, reqs, acts[i].entry, acts[i].cutoff)
    ensures FromVerifier(cr, reqs, Turns(p, acts))
  {
    hide Behind;
  }

  // p opens a new store, commits e, compacts it away and adopts the empty file.
  lemma CommitAndForget(c: Codec, mayCompact: set<Pid>, p: Pid, e: Entry, cutoff: int, before: int)
    returns (turns: seq<Turn>)
    requires Good(c) && p in mayCompact && ValidEntry(e) && Unpruned(e)
    requires e.timestamp < before && e.transferTimestamp < before
    ensures turns == [Turn(p, Open), Turn(p, Crash)] + Turns(p, OPEN_ACTS) + Turns(p, CommitActs(c, e, cutoff))
                     + Turns(p, RewriteActs(before)) + Turns(p, ADOPT_ACTS)
    ensures Run(c, mayCompact, turns) ==
            State([LineOf(c, e), []], Some(1), map[], map[p := Proc(Idle, Handle(1, 0, EMPTY_INDEX, true))],
                  [Wrote(e, cutoff), Pruned(before)], [0])
  {
    hide Run, Steps, ParseAll, Complete, Tail, IndexMore, LineOf, ValidEntry, EncodeAll, Retained, PruneAll, Reread, Turns, CommitActs, RewriteActs;
    var s0 := State([[]], Some(0), map[], map[p := Proc(Closed, Handle(0, 0, EMPTY_INDEX, false))], [], []);
    turns := [Turn(p, Open), Turn(p, Crash)];
    CreatedRun(c, mayCompact, p);
    EmptyFile(c);
    SoloOpen(c, mayCompact, s0, p);
    RunOn(c, mayCompact, turns, p, OPEN_ACTS);
    turns := turns + Turns(p, OPEN_ACTS);
    var ha := Handle(0, 0, EMPTY_INDEX, true);
    var sa := Run(c, mayCompact, turns);
    assert sa.procs == map[p := Proc(Idle, ha)] by { EmptyIndex(); }
    RereadNothing(c, sa.inodes[0], ha);
    SoloCommit(c, mayCompact, sa, p, ha, ha, e, cutoff);
    RunOn(c, mayCompact, turns, p, CommitActs(c, e, cutoff));
    turns := turns + Turns(p, CommitActs(c, e, cutoff));
    var h := Handle(0, |LineOf(c, e)|, IndexEntry(EMPTY_INDEX, e), true);
    assert [] + LineOf(c, e) == LineOf(c, e);
    var sb := Run(c, mayCompact, turns);
    assert sb == State([LineOf(c, e)], Some(0), map[], map[p := Proc(Idle, h)], [Wrote(e, cutoff)], [0]);
    turns := ForgetAll(c, mayCompact, p, e, cutoff, before, turns, h);
  }

  lemma EmptyIndex()
    ensures IndexOf([]) == EMPTY_INDEX
  {
  }

  lemma ForgetAll(c: Codec, mayCompact: set<Pid>, p: Pid, e: Entry, cutoff: int, before: int, turns: seq<Turn>, h: Handle)
    returns (after: seq<Turn>)
    requires Good(c) && p in mayCompact && ValidEntry(e) && Unpruned(e)
    requires e.timestamp < before && e.transferTimestamp < before
    requires h == Handle(0, |LineOf(c, e)|, IndexEntry(EMPTY_INDEX, e), true)
    requires Run(c, mayCompact, turns) ==
             State([LineOf(c, e)], Some(0), map[], map[p := Proc(Idle, h)], [Wrote(e, cutoff)], [0])
    ensures after == turns + Turns(p, RewriteActs(before)) + Turns(p, ADOPT_ACTS)
    ensures Run(c, mayCompact, after) ==
            State([LineOf(c, e), []], Some(1), map[], map[p := Proc(Idle, Handle(1, 0, EMPTY_INDEX, true))],
                  [Wrote(e, cutoff), Pruned(before)], [0])
  {
    hide Run, Steps, ParseAll, Complete, Tail, IndexMore, LineOf, ValidEntry, EncodeAll, Retained, PruneAll, Reread, Turns, RewriteActs, Compacted;
    var sb := Run(c, mayCompact, turns);
    OneEntryFile(c, e);
    RereadNothing(c, sb.inodes[0], h);
    PruneOne(c, e, before);
    NothingKept(c, e, before);
    SoloRewrite(c, mayCompact, sb, p, h, [e], before);
    RunOn(c, mayCompact, turns, p, RewriteActs(before));
    after := turns + Turns(p, RewriteActs(before));
    var sc := Run(c, mayCompact, after);
    assert sc.inodes == [LineOf(c, e), []] && sc.path == Some(1) && sc.locks == map[0 := p];
    SoloAdopt(c, mayCompact, sc, p, h, 0, EMPTY_INDEX, 2);
    RunOn(c, mayCompact, after, p, ADOPT_ACTS);
    after := after + Turns(p, ADOPT_ACTS);
    assert Run(c, mayCompact, after).locks == map[];
    assert Run(c, mayCompact, after).procs == map[p := Proc(Idle, Handle(1, 0, EMPTY_INDEX, true))];
  }

  lemma NothingKept(c: Codec, e: Entry, before: int)
    requires Unpruned(e) && e.timestamp < before && e.transferTimestamp < before
    ensures PruneAll([e], before) != [e] && Compacted([e], before) == []
    ensures EncodeAll(c, []) == [] && IndexOf([]) == EMPTY_INDEX
  {
    assert PruneAll([e], before)[0] == Prune(e, before);
    CompactedSnoc([], e, before);
    assert [] + [e] == [e] && Compacted([], before) == [];
  }

  // The horizon must respect verifications already under way, not only those that
  // start after the compaction.  At time compacted a store is compacted with the
  // horizon that every verification starting from then on allows.  A verification
  // of the same request that started before, and was appraised, still commits
  // afterwards: the record is acknowledged twice.  One that starts at or after
  // that time is refused.
  lemma InFlightVerificationPassesTwice(c: Codec, mayCompact: set<Pid>, cr: Crypto, p: Pid, req: Request, compacted: int)
    returns (turns: seq<Turn>)
    requires Good(c) && p in mayCompact && Appraise(cr, req).Ok? && ValidEntry(Appraise(cr, req).value)
    requires Appraise(cr, req).value.timestamp < compacted - req.maxAge
    requires Appraise(cr, req).value.transferTimestamp < compacted - req.maxAge
    ensures var e, cutoff, before := Appraise(cr, req).value, req.now - req.maxAge, compacted - req.maxAge;
            var s := Run(c, mayCompact, turns);
            && FromVerifier(cr, {req}, turns)
            && req.now < compacted && cutoff <= e.timestamp < before && cutoff <= e.transferTimestamp < before
            && s.log == [Wrote(e, cutoff), Pruned(before), Wrote(e, cutoff)] && s.acks == [0, 2]
            && !HorizonContract(s.log)
    ensures Injective(cr) ==> forall later :: Appraise(cr, later).Ok? && later.maxAge == req.maxAge && later.now >= compacted ==>
              later.record != req.record && Appraise(cr, later).value.transferKey != Appraise(cr, req).value.transferKey
  {
    hide Run, Steps, LineOf, ValidEntry, Appraise, Injective, Turns, CommitActs, RewriteActs, FromVerifier, Reread, IndexEntry;
    var e, cutoff, before := Appraise(cr, req).value, req.now - req.maxAge, compacted - req.maxAge;
    AppraisalIsFresh(cr, req);
    var first := CommitAndForget(c, mayCompact, p, e, cutoff, before);
    var h := Handle(1, 0, EMPTY_INDEX, true);
    RereadNothing(c, [], h);
    SoloCommit(c, mayCompact, Run(c, mayCompact, first), p, h, h, e, cutoff);
    RunOn(c, mayCompact, first, p, CommitActs(c, e, cutoff));
    turns := first + Turns(p, CommitActs(c, e, cutoff));
    AllFromVerifier(c, cr, req, p, e, cutoff, before);
    var log := Run(c, mayCompact, turns).log;
    assert log[1] == Pruned(before) && log[2] == Wrote(e, cutoff);
    if Injective(cr) {
      forall later | Appraise(cr, later).Ok? && later.maxAge == req.maxAge && later.now >= compacted
        ensures later.record != req.record && Appraise(cr, later).value.transferKey != e.transferKey
      {
        ForgottenMeansStale(cr, req, later, before);
      }
    }
  }

  lemma AllFromVerifier(c: Codec, cr: Crypto, req: Request, p: Pid, e: Entry, cutoff: int, before: int)
    requires Appraise(cr, req) == Ok(e) && cutoff == req.now - req.maxAge
    ensures FromVerifier(cr, {req}, [Turn(p, Open), Turn(p, Crash)] + Turns(p, OPEN_ACTS) + Turns(p, CommitActs(c, e, cutoff))
                                    + Turns(p, RewriteActs(before)) + Turns(p, ADOPT_ACTS) + Turns(p, CommitActs(c, e, cutoff)))
  {
    hide Turns, FromVerifier, Appraise;
    var reqs := {req};
    assert Behind(cr, reqs, e, cutoff);
    var created, reopened, commit, rewrite, adopt := [Turn(p, Open), Turn(p, Crash)], Turns(p, OPEN_ACTS), Turns(p, CommitActs(c, e, cutoff)),
      Turns(p, RewriteActs(before)), Turns(p, ADOPT_ACTS);
    assert FromVerifier(cr, reqs, created) by { CreatedFromVerifier(cr, reqs, p); }
    TurnsFromVerifier(cr, reqs, p, OPEN_ACTS);
    TurnsFromVerifier(cr, reqs, p, CommitActs(c, e, cutoff));
    TurnsFromVerifier(cr, reqs, p, RewriteActs(before));
    TurnsFromVerifier(cr, reqs, p, ADOPT_ACTS);
    FromVerifierConcat(cr, reqs, created, reopened);
    FromVerifierConcat(cr, reqs, created + reopened, commit);
    FromVerifierConcat(cr, reqs, created + reopened + commit, rewrite);
    FromVerifierConcat(cr, reqs, created + reopened + commit + rewrite, adopt);
    FromVerifierConcat(cr, reqs, created + reopened + commit + rewrite + adopt, commit);
  }

  lemma CreatedFromVerifier(cr: Crypto, reqs: set<Request>, p: Pid)
    ensures FromVerifier(cr, reqs, [Turn(p, Open), Turn(p, Crash)])
  {
  }
}
