// The reaper's protected set is the union of two independently locked reads:
// first the pool (warm machines and in-flight handoffs), then the active leases.
// Protection moves hand over hand: a lease is registered before the handoff
// marker is cleared.
module Reaper {

  type Id = string

  // live: machines whose session or pool membership has not ended; used: every
  // ID ever given out (the provider does not reuse them); adopted: machines for
  // which a lease was registered out of a handoff.
  datatype Broker = Broker(
    warm: set<Id>, handoff: set<Id>, active: set<Id>, adopted: set<Id>, live: set<Id>, used: set<Id>)

  const INITIAL := Broker({}, {}, {}, {}, {}, {})

  datatype Move =
    | Boot(id: Id)            // a new machine joins the warm pool
    | BeginHandoff(id: Id)    // taken from the pool for a session
    | Adopt(id: Id)           // registered as an active lease
    | FinishHandoff(id: Id)   // handoff marker cleared
    | StartCold(id: Id)       // a session whose machine did not come from the pool
    | EndSession(id: Id)
    | Retire(id: Id)          // the pool gives a warm machine up

  function Pool(b: Broker): set<Id> { b.warm + b.handoff }

  // A session may end before or after its handoff marker is cleared; the marker
  // is cleared only after adoption.
  predicate Enabled(b: Broker, m: Move) {
    match m
    case Boot(id) => id !in b.used
    case BeginHandoff(id) => id in b.warm
    case Adopt(id) => id in b.handoff && id !in b.adopted
    case FinishHandoff(id) => id in b.handoff && id in b.adopted
    case StartCold(id) => id !in b.used
    case EndSession(id) => id in b.active
    case Retire(id) => id in b.warm
  }

  function Next(b: Broker, m: Move): Broker {
    match m
    case Boot(id) => b.(warm := b.warm + {id}, live := b.live + {id}, used := b.used + {id})
    case BeginHandoff(id) => b.(warm := b.warm - {id}, handoff := b.handoff + {id})
    case Adopt(id) => b.(active := b.active + {id}, adopted := b.adopted + {id})
    case FinishHandoff(id) => b.(handoff := b.handoff - {id})
    case StartCold(id) => b.(active := b.active + {id}, live := b.live + {id}, used := b.used + {id})
    case EndSession(id) => b.(active := b.active - {id}, live := b.live - {id})
    case Retire(id) => b.(warm := b.warm - {id}, live := b.live - {id})
  }

  // The states a run of moves goes through, first to last.
  predicate Trace(bs: seq<Broker>, ms: seq<Move>) {
    && |bs| == |ms| + 1
    && bs[0] == INITIAL
    && forall i :: 0 <= i < |ms| ==> Enabled(bs[i], ms[i]) && bs[i + 1] == Next(bs[i], ms[i])
  }

  // Every live machine is protected somewhere, and by its lease once adopted.
  predicate Inv(b: Broker) {
    && b.live <= Pool(b) + b.active
    && b.live * b.adopted <= b.active
    && Pool(b) + b.active + b.adopted <= b.used
    && b.warm !! b.handoff && b.warm !! b.active && b.warm !! b.adopted
    && b.warm <= b.live
  }

  lemma {:induction false} TraceKeepsInv(bs: seq<Broker>, ms: seq<Move>, i: nat)
    requires Trace(bs, ms) && i < |bs|
    ensures Inv(bs[i])
  {
    if i > 0 {
      TraceKeepsInv(bs, ms, i - 1);
      StepKeepsInv(bs[i - 1], ms[i - 1]);
    }
  }

  lemma StepKeepsInv(b: Broker, m: Move)
    requires Inv(b) && Enabled(b, m)
    ensures Inv(Next(b, m))
  {
  }

  // Between two states: an ID known at the first is never reintroduced, so a
  // machine live at the second was live throughout, and an ID outside the pool
  // at the first stays outside.
  lemma {:induction false} NothingComesBack(bs: seq<Broker>, ms: seq<Move>, i: nat, j: nat, id: Id)
    requires Trace(bs, ms) && i <= j < |bs| && id in bs[i].used
    ensures id in bs[j].used
    ensures id in bs[j].live ==> forall k :: i <= k <= j ==> id in bs[k].live
    ensures id !in Pool(bs[i]) ==> id !in Pool(bs[j])
  {
    if i < j {
      NothingComesBack(bs, ms, i, j - 1, id);
      assert Enabled(bs[j - 1], ms[j - 1]) && bs[j] == Next(bs[j - 1], ms[j - 1]);
    }
  }

  // activeIDsFn.  The reads are its two arguments: whatever the other goroutines
  // did between them has happened by the second.
  method ActiveIds(hasPool: bool, poolRead: set<Id>, activeRead: set<Id>) returns (ids: set<Id>)
    ensures ids == Snapshot(hasPool, poolRead, activeRead)
  {
    if !hasPool { return activeRead; }
    ids := poolRead;
    var rest := activeRead;
    while rest != {}
      invariant rest <= activeRead
      invariant ids == poolRead + (activeRead - rest)
      decreases |rest|
    {
      var id :| id in rest;
      ids, rest := ids + {id}, rest - {id};
    }
  }

  function Snapshot(hasPool: bool, poolRead: set<Id>, activeRead: set<Id>): set<Id> {
    if hasPool then poolRead + activeRead else activeRead
  }

  // Pool read at state i, leases read at a later state j.  A machine still live
  // at j is missing from the snapshot exactly when it is a warm or handing-off
  // machine that did not exist at i.
  lemma SnapshotMissesOnlyNewcomers(bs: seq<Broker>, ms: seq<Move>, i: nat, j: nat, id: Id)
    requires Trace(bs, ms) && i <= j < |bs| && id in bs[j].live
    ensures id !in Snapshot(true, Pool(bs[i]), bs[j].active) <==> id !in bs[i].used && id !in bs[j].active
  {
    TraceKeepsInv(bs, ms, i);
    TraceKeepsInv(bs, ms, j);
    if id in bs[i].used {
      NothingComesBack(bs, ms, i, j, id);
    }
  }

  // So no machine that is live at both reads is ever missing.
  lemma SnapshotKeepsTheLive(bs: seq<Broker>, ms: seq<Move>, i: nat, j: nat)
    requires Trace(bs, ms) && i <= j < |bs|
    ensures bs[i].live * bs[j].live <= Snapshot(true, Pool(bs[i]), bs[j].active)
  {
    TraceKeepsInv(bs, ms, i);
    forall id | id in bs[i].live * bs[j].live ensures id in Snapshot(true, Pool(bs[i]), bs[j].active) {
      SnapshotMissesOnlyNewcomers(bs, ms, i, j, id);
    }
  }

  // Without a pool every live machine is under lease.
  lemma {:induction false} WithoutPoolLeasesAreEnough(bs: seq<Broker>, ms: seq<Move>, j: nat)
    requires Trace(bs, ms) && j < |bs| && forall k :: 0 <= k < |ms| ==> !ms[k].Boot?
    ensures Pool(bs[j]) == {} && bs[j].live <= Snapshot(false, {}, bs[j].active)
  {
    if j > 0 {
      WithoutPoolLeasesAreEnough(bs, ms, j - 1);
      assert Enabled(bs[j - 1], ms[j - 1]) && bs[j] == Next(bs[j - 1], ms[j - 1]);
    }
  }

  // The reads in the other order lose a machine, live throughout, that is adopted
  // and leaves its handoff between them.
  lemma SwappedReadsLoseAMachine(id: Id) returns (bs: seq<Broker>, ms: seq<Move>, i: nat, j: nat)
    ensures Trace(bs, ms) && i <= j < |bs|
    ensures forall k :: i <= k <= j ==> id in bs[k].live
    ensures id !in bs[i].active + Pool(bs[j])
  {
    ms := [Boot(id), BeginHandoff(id), Adopt(id), FinishHandoff(id)];
    var b1 := Next(INITIAL, ms[0]);
    var b2 := Next(b1, ms[1]);
    var b3 := Next(b2, ms[2]);
    var b4 := Next(b3, ms[3]);
    bs := [INITIAL, b1, b2, b3, b4];
    i, j := 2, 4;
  }

  // With the reads swapped, that hand-over is the only way: a machine live at
  // both reads is lost exactly when its lease began and its handoff ended in
  // between.
  lemma SwappedReadsLoseExactly(bs: seq<Broker>, ms: seq<Move>, i: nat, j: nat, id: Id)
    requires Trace(bs, ms) && i <= j < |bs| && id in bs[i].live && id in bs[j].live
    ensures id !in bs[i].active + Pool(bs[j]) <==>
            id in Pool(bs[i]) && id !in bs[i].adopted && id in bs[j].adopted && id !in Pool(bs[j])
  {
    TraceKeepsInv(bs, ms, i);
    TraceKeepsInv(bs, ms, j);
    NothingComesBack(bs, ms, i, j, id);
    if id !in bs[i].active && id !in Pool(bs[j]) {
      LeavingThePoolAdopts(bs, ms, i, j, id);
    }
    if id in bs[i].active && id in Pool(bs[i]) {
      ActiveFromPoolIsAdopted(bs, ms, i);
    }
  }

  lemma {:induction false} LeavingThePoolAdopts(bs: seq<Broker>, ms: seq<Move>, i: nat, j: nat, id: Id)
    requires Trace(bs, ms) && i <= j < |bs|
    requires id in Pool(bs[i]) && id in bs[j].live && id !in Pool(bs[j])
    ensures id in bs[j].adopted
  {
    TraceKeepsInv(bs, ms, i);
    TraceKeepsInv(bs, ms, j - 1);
    assert Enabled(bs[j - 1], ms[j - 1]) && bs[j] == Next(bs[j - 1], ms[j - 1]);
    NothingComesBack(bs, ms, i, j, id);
    if id !in Pool(bs[j - 1]) {
      LeavingThePoolAdopts(bs, ms, i, j - 1, id);
    }
  }

  lemma {:induction false} ActiveFromPoolIsAdopted(bs: seq<Broker>, ms: seq<Move>, i: nat)
    requires Trace(bs, ms) && i < |bs|
    ensures bs[i].active * Pool(bs[i]) <= bs[i].adopted
  {
    if i > 0 {
      ActiveFromPoolIsAdopted(bs, ms, i - 1);
      TraceKeepsInv(bs, ms, i - 1);
      assert Enabled(bs[i - 1], ms[i - 1]) && bs[i] == Next(bs[i - 1], ms[i - 1]);
    }
  }
}
