// The dashboard's exemption records: a JSON file, mutated by any number of
// handles under one lock, each by reload, edit and atomic rewrite.
module ExemptionStore {
  import opened Optional

  datatype Exemption = Exemption(
    id: string, scope: string, owner: string, reason: string, createdBy: string,
    created: int, expiry: int, lastMatched: Option<int>)

  // Thirty days, in nanoseconds.
  const STALE_THRESHOLD := 30 * 24 * 3600 * 1_000_000_000
  const MAX_FILE_BYTES := 0x80_0000

  datatype Lifecycle = Active | Expired | Stale | Unobserved

  function Status(r: Exemption, now: int): Lifecycle {
    if now >= r.expiry then Expired
    else if r.lastMatched.None? then Unobserved
    else if now - r.lastMatched.value > STALE_THRESHOLD then Stale
    else Active
  }

  // validateExemptionRecordForAdd
  predicate ValidForAdd(r: Exemption) {
    r.owner != "" && r.reason != "" && r.scope != "" && r.expiry > r.created && r.id != ""
  }

  predicate UniqueIds(rs: seq<Exemption>) {
    forall i, j :: 0 <= i < j < |rs| ==> rs[i].id != rs[j].id
  }

  predicate AllValid(rs: seq<Exemption>) { forall i :: 0 <= i < |rs| ==> ValidForAdd(rs[i]) }

  // The file: absent, empty, or a JSON array (what is not one is Garbage).
  datatype File = Absent | EmptyFile | Garbage | Records(rs: seq<Exemption>)

  // Encoded size of a record list.
  type Sizer = seq<Exemption> -> nat

  // reloadLocked and decodeRecords
  function Load(size: Sizer, f: File): Option<seq<Exemption>> {
    match f
    case Absent => Some([])
    case EmptyFile => Some([])
    case Garbage => None
    case Records(rs) => if size(rs) <= MAX_FILE_BYTES && AllValid(rs) && UniqueIds(rs) then Some(rs) else None
  }

  // ---- Mutations as functions of the record list -------------------------

  datatype Op =
    | Add(record: Exemption, now: int)
    | Expire(id: string, now: int)
    | Renew(id: string, newExpiry: int)
    | Touch(id: string, when: int)
    | Remove(id: string)

  function Find(rs: seq<Exemption>, id: string): (i: int)
    ensures -1 <= i < |rs|
    ensures i >= 0 ==> rs[i].id == id && forall k :: 0 <= k < i ==> rs[k].id != id
    ensures i < 0 ==> forall k :: 0 <= k < |rs| ==> rs[k].id != id
  {
    if rs == [] then -1
    else if rs[0].id == id then 0
    else
      var i := Find(rs[1..], id);
      assert forall k :: 1 <= k < |rs| ==> rs[k] == rs[1..][k - 1];
      if i < 0 then -1 else i + 1
  }

  predicate AddBlocked(rs: seq<Exemption>, r: Exemption, now: int) {
    exists i :: 0 <= i < |rs| && (rs[i].id == r.id || (rs[i].scope == r.scope && Status(rs[i], now) != Expired))
  }

  // None is an error; the file is then not rewritten.
  function Apply(rs: seq<Exemption>, op: Op): Option<seq<Exemption>> {
    match op
    case Add(r, now) => if !ValidForAdd(r) || AddBlocked(rs, r, now) then None else Some(rs + [r])
    case Expire(id, now) =>
      var i := Find(rs, id);
      if i < 0 then None else Some(rs[i := rs[i].(expiry := now)])
    case Renew(id, newExpiry) =>
      var i := Find(rs, id);
      if i < 0 || newExpiry <= rs[i].created then None else Some(rs[i := rs[i].(expiry := newExpiry)])
    case Touch(id, when) =>
      var i := Find(rs, id);
      if i < 0 then None else Some(rs[i := rs[i].(lastMatched := Some(when))])
    case Remove(id) =>
      var i := Find(rs, id);
      if i < 0 then None else Some(rs[..i] + rs[i + 1..])
  }

  // The record list a mutation makes of a file.
  function Effect(size: Sizer, f: File, op: Op): Option<seq<Exemption>> {
    match Load(size, f)
    case None => None
    case Some(rs) => Apply(rs, op)
  }

  // ---- The store ---------------------------------------------------------

  class Disk {
    var file: File
    constructor (f: File) ensures file == f { file := f; }
  }

  class Store {
    const disk: Disk
    const size: Sizer
    var records: seq<Exemption>

    constructor (disk: Disk, size: Sizer)
      ensures this.disk == disk && this.size == size && records == []
    {
      this.disk, this.size, records := disk, size, [];
    }

    method Reload() returns (ok: bool)
      modifies this
      ensures ok <==> Load(size, disk.file).Some?
      ensures ok ==> records == Load(size, disk.file).value
      ensures !ok ==> records == old(records)
    {
      match disk.file {
        case Absent => records := []; return true;
        case EmptyFile => records := []; return true;
        case Garbage => return false;
        case Records(rs) =>
          if size(rs) > MAX_FILE_BYTES { return false; }
          var seen: set<string> := {};
          for i := 0 to |rs|
            invariant records == old(records)
            invariant AllValid(rs[..i]) && UniqueIds(rs[..i])
            invariant seen == set k | 0 <= k < i :: rs[k].id
          {
            if !ValidForAdd(rs[i]) { return false; }
            if rs[i].id in seen { return false; }
            seen := seen + {rs[i].id};
          }
          assert rs[..|rs|] == rs;
          records := rs;
          return true;
      }
    }

    method IndexOf(id: string) returns (i: int)
      ensures i == Find(records, id)
    {
      i := 0;
      while i < |records|
        invariant 0 <= i <= |records| && forall k :: 0 <= k < i ==> records[k].id != id
      {
        if records[i].id == id { return; }
        i := i + 1;
      }
      return -1;
    }

    // One mutation, start to finish, with the lock held; persists says whether
    // the atomic rewrite succeeds.  The file changes only by a complete,
    // successful mutation of what it held; a handle's memory may run ahead of
    // it after a failed rewrite, which the next reload mends.
    method Mutate(op: Op, persists: bool) returns (ok: bool)
      modifies this, disk
      ensures ok <==> persists && Effect(size, old(disk.file), op).Some?
      ensures disk.file == if ok then Records(Effect(size, old(disk.file), op).value) else old(disk.file)
      ensures Effect(size, old(disk.file), op).Some? ==> records == Effect(size, old(disk.file), op).value
    {
      if op.Add? && !ValidForAdd(op.record) { return false; }
      var loaded := Reload();
      if !loaded { return false; }
      match op {
        case Add(r, now) =>
          for k := 0 to |records|
            invariant disk.file == old(disk.file) && Load(size, disk.file) == Some(records)
            invariant forall l :: 0 <= l < k ==>
              records[l].id != r.id && !(records[l].scope == r.scope && Status(records[l], now) != Expired)
          {
            if records[k].id == r.id { return false; }
            if records[k].scope == r.scope && Status(records[k], now) != Expired { return false; }
          }
          records := records + [r];
        case Expire(id, now) =>
          var i := IndexOf(id);
          if i < 0 { return false; }
          records := records[i := records[i].(expiry := now)];
        case Renew(id, newExpiry) =>
          var i := IndexOf(id);
          if i < 0 { return false; }
          if newExpiry <= records[i].created { return false; }
          records := records[i := records[i].(expiry := newExpiry)];
        case Touch(id, when) =>
          var i := IndexOf(id);
          if i < 0 { return false; }
          records := records[i := records[i].(lastMatched := Some(when))];
        case Remove(id) =>
          var i := IndexOf(id);
          if i < 0 { return false; }
          records := records[..i] + records[i + 1..];
      }
      if persists { disk.file := Records(records); }
      return persists;
    }

    // Among the records of a scope: unexpired before expired, then the latest
    // created, then the first in the list.
    method FindByScope(scope: string, now: int) returns (found: Option<Exemption>)
      ensures found.None? <==> forall i :: 0 <= i < |records| ==> records[i].scope != scope
      ensures found.Some? ==> found.value.scope == scope
      ensures found.Some? ==> exists f: nat :: FirstBest(records, scope, now, f) && records[f] == found.value
    {
      found := None;
      ghost var f := 0;
      for k := 0 to |records|
        invariant found.None? <==> forall i :: 0 <= i < k ==> records[i].scope != scope
        invariant found.Some? ==> FirstBest(records[..k], scope, now, f) && records[f] == found.value
      {
        var rec := records[k];
        if rec.scope != scope { continue; }
        if found.None? {
          found, f := Some(rec), k;
          continue;
        }
        var foundExpired := Status(found.value, now) == Expired;
        var recExpired := Status(rec, now) == Expired;
        if foundExpired && !recExpired {
          found, f := Some(rec), k;
          continue;
        }
        if foundExpired == recExpired && rec.created > found.value.created {
          found, f := Some(rec), k;
        }
      }
      assert records[..|records|] == records;
    }
  }

  // y is at least as good a choice as x.
  predicate NotPreferred(x: Exemption, y: Exemption, now: int) {
    var xe, ye := Status(x, now) == Expired, Status(y, now) == Expired;
    if xe != ye then xe else x.created <= y.created
  }

  // Record f is the first among the best of its scope.
  predicate FirstBest(rs: seq<Exemption>, scope: string, now: int, f: nat) {
    && f < |rs| && rs[f].scope == scope
    && (forall i :: 0 <= i < |rs| && rs[i].scope == scope ==> NotPreferred(rs[i], rs[f], now))
    && (forall i :: 0 <= i < f && rs[i].scope == scope ==> !NotPreferred(rs[f], rs[i], now))
  }

  // ---- What mutations keep ----------------------------------------------

  // The files that load, and as what.
  lemma LoadsExactly(size: Sizer, f: File, rs: seq<Exemption>)
    ensures Load(size, f) == Some(rs) <==>
            || ((f == Absent || f == EmptyFile) && rs == [])
            || (&& f == Records(rs) && size(rs) <= 8 * 1024 * 1024
                && (forall i, j :: 0 <= i < j < |rs| ==> rs[i].id != rs[j].id)
                && (forall i :: 0 <= i < |rs| ==>
                      rs[i].owner != "" && rs[i].reason != "" && rs[i].scope != "" && rs[i].id != "" && rs[i].created < rs[i].expiry))
  {
    if f == Records(rs) {
      assert UniqueIds(rs) <==> forall i, j :: 0 <= i < j < |rs| ==> rs[i].id != rs[j].id;
      assert AllValid(rs) <==> forall i :: 0 <= i < |rs| ==> ValidForAdd(rs[i]);
    }
  }

  function IdOf(op: Op): string { if op.Add? then op.record.id else op.id }

  // The record with the given ID, and the list without it.
  function Held(rs: seq<Exemption>, id: string): Option<Exemption> {
    if rs == [] then None else if rs[0].id == id then Some(rs[0]) else Held(rs[1..], id)
  }

  function Without(rs: seq<Exemption>, id: string): seq<Exemption> {
    if rs == [] then [] else (if rs[0].id == id then [] else [rs[0]]) + Without(rs[1..], id)
  }

  // What an operation makes of the record with its own ID.
  function Edited(was: Option<Exemption>, op: Op): Option<Exemption> {
    match op
    case Add(r, _) => Some(r)
    case Expire(_, now) => if was.None? then None else Some(was.value.(expiry := now))
    case Renew(_, newExpiry) => if was.None? then None else Some(was.value.(expiry := newExpiry))
    case Touch(_, when) => if was.None? then None else Some(was.value.(lastMatched := Some(when)))
    case Remove(_) => None
  }

  // An operation succeeds exactly when its ID is held (for Add: is not, and no
  // unexpired record has its scope) and its own demands are met.
  lemma ApplySucceedsExactly(rs: seq<Exemption>, op: Op)
    ensures op.Add? ==> (Apply(rs, op).Some? <==>
              var r := op.record;
              && r.owner != "" && r.reason != "" && r.scope != "" && r.id != "" && r.created < r.expiry
              && (forall i :: 0 <= i < |rs| ==> rs[i].id != r.id)
              && (forall i :: 0 <= i < |rs| && rs[i].scope == r.scope ==> rs[i].expiry <= op.now))
    ensures op.Renew? ==> (Apply(rs, op).Some? <==> Held(rs, op.id).Some? && Held(rs, op.id).value.created < op.newExpiry)
    ensures !op.Add? && !op.Renew? ==> (Apply(rs, op).Some? <==> Held(rs, op.id).Some?)
  {
    FindIsHeld(rs, IdOf(op));
    if op.Add? {
      assert forall i :: 0 <= i < |rs| ==> (Status(rs[i], op.now) == Expired <==> rs[i].expiry <= op.now);
    }
  }

  lemma {:induction false} FindIsHeld(rs: seq<Exemption>, id: string)
    ensures Find(rs, id) < 0 <==> Held(rs, id).None?
    ensures Find(rs, id) >= 0 ==> Held(rs, id) == Some(rs[Find(rs, id)])
  {
    if rs != [] && rs[0].id != id {
      FindIsHeld(rs[1..], id);
    }
  }

  // It then edits exactly the record of its own ID, field by field as named, and
  // leaves every other record as it is and in its order.
  lemma ApplyEditsItsRecord(rs: seq<Exemption>, op: Op)
    requires UniqueIds(rs) && Apply(rs, op).Some?
    ensures Held(Apply(rs, op).value, IdOf(op)) == Edited(Held(rs, IdOf(op)), op)
    ensures Without(Apply(rs, op).value, IdOf(op)) == Without(rs, IdOf(op))
  {
    hide ValidForAdd, UniqueIds;
    var id := IdOf(op);
    FindIsHeld(rs, id);
    match op {
      case Add(r, _) =>
        AddedIsHeld(rs, r);
      case Remove(_) =>
        RemovedIsGone(rs, Find(rs, id));
      case _ =>
        var i := Find(rs, id);
        UpdatedIsHeld(rs, i, Apply(rs, op).value[i]);
    }
  }

  lemma {:induction false} AddedIsHeld(rs: seq<Exemption>, r: Exemption)
    requires forall k :: 0 <= k < |rs| ==> rs[k].id != r.id
    ensures Held(rs + [r], r.id) == Some(r) && Without(rs + [r], r.id) == Without(rs, r.id)
  {
    if rs == [] {
      assert rs + [r] == [r] && [r][1..] == [];
    } else {
      assert (rs + [r])[1..] == rs[1..] + [r];
      AddedIsHeld(rs[1..], r);
    }
  }

  lemma {:induction false} UpdatedIsHeld(rs: seq<Exemption>, i: nat, r: Exemption)
    requires i < |rs| && r.id == rs[i].id && forall k :: 0 <= k < i ==> rs[k].id != r.id
    ensures Held(rs[i := r], r.id) == Some(r) && Without(rs[i := r], r.id) == Without(rs, r.id)
    decreases i
  {
    if i == 0 {
      assert rs[i := r][1..] == rs[1..];
    } else {
      assert rs[i := r][1..] == rs[1..][i - 1 := r];
      UpdatedIsHeld(rs[1..], i - 1, r);
    }
  }

  lemma {:induction false} RemovedIsGone(rs: seq<Exemption>, i: nat)
    requires UniqueIds(rs) && i < |rs|
    ensures var after := rs[..i] + rs[i + 1..];
            Held(after, rs[i].id).None? && Without(after, rs[i].id) == Without(rs, rs[i].id)
    decreases i
  {
    var after, id := rs[..i] + rs[i + 1..], rs[i].id;
    if i == 0 {
      assert after == rs[1..];
      NotHeld(rs[1..], id);
    } else {
      assert after[1..] == rs[1..][..i - 1] + rs[1..][i..] && after[0] == rs[0];
      assert rs[0].id != id;
      RemovedIsGone(rs[1..], i - 1);
    }
  }

  lemma {:induction false} NotHeld(rs: seq<Exemption>, id: string)
    requires forall k :: 0 <= k < |rs| ==> rs[k].id != id
    ensures Held(rs, id).None?
  {
    if rs != [] {
      NotHeld(rs[1..], id);
    }
  }

  // A record of another ID is what it was.
  lemma {:induction false} HeldElsewhere(rs: seq<Exemption>, id: string, other: string)
    requires id != other
    ensures Held(Without(rs, id), other) == Held(rs, other)
  {
    if rs != [] {
      HeldElsewhere(rs[1..], id, other);
      var rest := Without(rs[1..], id);
      if rs[0].id != id {
        assert ([rs[0]] + rest)[1..] == rest;
      } else {
        assert [] + rest == rest;
      }
    }
  }

  // A record's life: unexpired until its expiry and expired from then on; while
  // unexpired, unobserved until touched, then active for thirty days after the
  // last touch and stale beyond.
  lemma LifecycleOverTime(rs: seq<Exemption>, id: string, when: int, now: int)
    requires UniqueIds(rs) && Held(rs, id).Some?
    ensures var r := Held(rs, id).value;
            && (Status(r, now) == Expired <==> now >= r.expiry)
            && (Status(r, now) == Unobserved <==> now < r.expiry && r.lastMatched.None?)
            && Apply(rs, Touch(id, when)).Some?
            && var touched := Held(Apply(rs, Touch(id, when)).value, id);
               && touched.Some?
               && (Status(touched.value, now) == Active <==> now < r.expiry && now <= when + 30 * 24 * 3600 * 1_000_000_000)
               && (Status(touched.value, now) == Stale <==> now < r.expiry && now > when + 30 * 24 * 3600 * 1_000_000_000)
  {
    FindIsHeld(rs, id);
    ApplyEditsItsRecord(rs, Touch(id, when));
  }

  // No operation ever duplicates an ID.
  lemma IdsStayUnique(rs: seq<Exemption>, op: Op)
    requires UniqueIds(rs) && Apply(rs, op).Some?
    ensures UniqueIds(Apply(rs, op).value)
  {
  }

  // A rewritten file loads again exactly when it is within the size bound and,
  // for Expire, the given time is after the record's creation.
  lemma RewrittenFileLoads(size: Sizer, rs: seq<Exemption>, op: Op)
    requires AllValid(rs) && UniqueIds(rs) && Apply(rs, op).Some?
    ensures var after := Apply(rs, op).value;
            Load(size, Records(after)) == Some(after) <==>
            size(after) <= MAX_FILE_BYTES && (op.Expire? ==> op.now > rs[Find(rs, op.id)].created)
  {
    IdsStayUnique(rs, op);
    var after := Apply(rs, op).value;
    if op.Expire? {
      var i := Find(rs, op.id);
      assert after[i].expiry == op.now && after[i].created == rs[i].created;
      assert ValidForAdd(after[i]) <==> op.now > rs[i].created;
    }
  }

  // Expiring a record no later than its creation leaves a file that no handle
  // can load again; UnreadableFileStays says what that means for later runs.
  lemma BackdatedExpiryLocksTheStore(size: Sizer, rs: seq<Exemption>, id: string, now: int)
    requires AllValid(rs) && UniqueIds(rs) && Find(rs, id) >= 0 && now <= rs[Find(rs, id)].created
    ensures Apply(rs, Expire(id, now)).Some?
    ensures Load(size, Records(Apply(rs, Expire(id, now)).value)).None?
  {
    RewrittenFileLoads(size, rs, Expire(id, now));
    var i := Find(rs, id);
    var after := Apply(rs, Expire(id, now)).value;
    assert !ValidForAdd(after[i]);
  }

  // At most one unexpired record per scope.
  predicate OneActivePerScope(rs: seq<Exemption>, now: int) {
    forall i, j :: 0 <= i < j < |rs| && rs[i].scope == rs[j].scope ==>
      Status(rs[i], now) == Expired || Status(rs[j], now) == Expired
  }

  // Every operation but Renew keeps it: Add checks for it, Expire only for
  // times that have come, Touch and Remove activate nothing.
  lemma ActiveScopeKept(rs: seq<Exemption>, op: Op, now: int)
    requires OneActivePerScope(rs, now) && Apply(rs, op).Some?
    requires !op.Renew? && (op.Add? ==> op.now == now) && (op.Expire? ==> op.now <= now)
    ensures OneActivePerScope(Apply(rs, op).value, now)
  {
  }

  // Renew keeps it exactly when it leaves the record expired or no other record
  // of the scope is active.
  lemma RenewKeepsActiveScopeIff(rs: seq<Exemption>, id: string, newExpiry: int, now: int)
    requires OneActivePerScope(rs, now) && UniqueIds(rs) && Apply(rs, Renew(id, newExpiry)).Some?
    ensures var i := Find(rs, id);
            OneActivePerScope(Apply(rs, Renew(id, newExpiry)).value, now) <==>
            newExpiry <= now || forall j :: 0 <= j < |rs| && j != i && rs[j].scope == rs[i].scope ==> Status(rs[j], now) == Expired
  {
    var i := Find(rs, id);
    var after := Apply(rs, Renew(id, newExpiry)).value;
    assert forall j :: 0 <= j < |rs| && j != i ==> after[j] == rs[j];
    assert after[i].scope == rs[i].scope && (Status(after[i], now) == Expired <==> newExpiry <= now);
    if OneActivePerScope(after, now) && newExpiry > now {
      forall j | 0 <= j < |rs| && j != i && rs[j].scope == rs[i].scope ensures Status(rs[j], now) == Expired {
        if j < i {
          assert after[j].scope == after[i].scope;
        } else {
          assert after[i].scope == after[j].scope;
        }
      }
    }
  }

  // ---- Interleavings -----------------------------------------------------

  type Handle = nat

  // Between Locked and Loaded the handle holds the lock; a rewrite is atomic.
  datatype Stage = Idle | Locked(op: Op) | Loaded(op: Op, rs: seq<Exemption>)

  // log: the operations whose rewrite took effect, in lock order.
  datatype System = System(file: File, lock: Option<Handle>, stages: map<Handle, Stage>, log: seq<Op>)

  datatype Action = Acquire(op: Op) | LoadFile | Rewrite | GiveUp

  function StageOf(s: System, h: Handle): Stage { if h in s.stages then s.stages[h] else Idle }

  function Released(s: System, h: Handle): System {
    s.(lock := None, stages := s.stages[h := Idle])
  }

  // One step of one handle; GiveUp is an error or a crash.
  function Step(size: Sizer, s: System, h: Handle, a: Action): System {
    var st := StageOf(s, h);
    match a
    case Acquire(op) =>
      if st.Idle? && s.lock.None? then s.(lock := Some(h), stages := s.stages[h := Locked(op)]) else s
    case LoadFile =>
      if !st.Locked? then s
      else
        (match Load(size, s.file)
         case None => Released(s, h)
         case Some(rs) => s.(stages := s.stages[h := Loaded(st.op, rs)]))
    case Rewrite =>
      if !st.Loaded? then s
      else
        (match Apply(st.rs, st.op)
         case None => Released(s, h)
         case Some(after) => Released(s, h).(file := Records(after), log := s.log + [st.op]))
    case GiveUp => if st.Idle? then s else Released(s, h)
  }

  // The operations applied one after the other to the initial records.
  function Sequential(rs: seq<Exemption>, log: seq<Op>): Option<seq<Exemption>> {
    if log == [] then Some(rs)
    else
      match Sequential(rs, log[..|log| - 1])
      case None => None
      case Some(mid) => Apply(mid, log[|log| - 1])
  }

  ghost predicate Inv(size: Sizer, initial: seq<Exemption>, s: System) {
    && (forall h: Handle :: !StageOf(s, h).Idle? ==> s.lock == Some(h))
    && (forall h: Handle :: StageOf(s, h).Loaded? ==> Load(size, s.file) == Some(StageOf(s, h).rs))
    && Sequential(initial, s.log).Some?
    && (s.file.Records? ==> s.file.rs == Sequential(initial, s.log).value)
    && (!s.file.Records? ==> s.log == [] && (Load(size, s.file).Some? ==> initial == []))
    && UniqueIds(Sequential(initial, s.log).value)
  }

  datatype Turn = Turn(h: Handle, a: Action)

  function Run(size: Sizer, file: File, turns: seq<Turn>): System {
    if turns == [] then System(file, None, map[], [])
    else
      var t := turns[|turns| - 1];
      Step(size, Run(size, file, turns[..|turns| - 1]), t.h, t.a)
  }

  lemma StepKeepsInv(size: Sizer, initial: seq<Exemption>, s: System, h: Handle, a: Action)
    requires Inv(size, initial, s)
    ensures Inv(size, initial, Step(size, s, h, a))
  {
    hide ValidForAdd, UniqueIds, Apply, Sequential;
    var st := StageOf(s, h);
    var t := Step(size, s, h, a);
    assert forall g: Handle :: g != h ==> StageOf(t, g) == StageOf(s, g);
    if a.Rewrite? && st.Loaded? && Apply(st.rs, st.op).Some? {
      assert st.rs == Sequential(initial, s.log).value by { LoadedIsCurrent(size, initial, s, h); }
      SequentialSnoc(initial, s.log, st.op);
      IdsStayUnique(st.rs, st.op);
    }
  }

  lemma LoadedIsCurrent(size: Sizer, initial: seq<Exemption>, s: System, h: Handle)
    requires Inv(size, initial, s) && StageOf(s, h).Loaded?
    ensures StageOf(s, h).rs == Sequential(initial, s.log).value
  {
    hide ValidForAdd, UniqueIds, Apply;
    assert Load(size, s.file) == Some(StageOf(s, h).rs);
  }

  lemma SequentialSnoc(rs: seq<Exemption>, log: seq<Op>, op: Op)
    ensures Sequential(rs, log).Some? ==> Sequential(rs, log + [op]) == Apply(Sequential(rs, log).value, op)
  {
    assert (log + [op])[..|log|] == log;
  }

  // The steps of one undisturbed mutation have the effect of Mutate, and are logged
  // exactly when it succeeds.
  lemma UndisturbedMutation(size: Sizer, s: System, h: Handle, op: Op)
    requires s.lock.None? && StageOf(s, h).Idle?
    ensures var t := Step(size, Step(size, Step(size, s, h, Acquire(op)), h, LoadFile), h, Rewrite);
            && t.lock.None? && StageOf(t, h).Idle?
            && t.file == (if Effect(size, s.file, op).Some? then Records(Effect(size, s.file, op).value) else s.file)
            && t.log == (if Effect(size, s.file, op).Some? then s.log + [op] else s.log)
  {
    hide Apply, ValidForAdd, UniqueIds;
    var locked := Step(size, s, h, Acquire(op));
    assert StageOf(locked, h) == Locked(op);
    var loaded := Step(size, locked, h, LoadFile);
    if Load(size, s.file).Some? {
      assert StageOf(loaded, h) == Loaded(op, Load(size, s.file).value);
    } else {
      assert StageOf(loaded, h) == Idle;
    }
  }

  // Whatever the interleaving, crashes included, the file is the sequential
  // application of the logged operations in lock order, all of them effective:
  // no update is lost, none is half done, and IDs are unique.
  lemma {:induction false} NoLostUpdates(size: Sizer, file: File, initial: seq<Exemption>, turns: seq<Turn>)
    requires Load(size, file) == Some(initial)
    ensures var s := Run(size, file, turns);
            && Inv(size, initial, s)
            && Sequential(initial, s.log).Some? && UniqueIds(Sequential(initial, s.log).value)
            && s.file == (if s.log == [] then file else Records(Sequential(initial, s.log).value))
  {
    hide Step, UniqueIds, ValidForAdd;
    if turns == [] {
      assert Inv(size, initial, System(file, None, map[], [])) by { InitialInv(size, file, initial); }
    } else {
      var init, t := turns[..|turns| - 1], turns[|turns| - 1];
      NoLostUpdates(size, file, initial, init);
      StepKeepsInv(size, initial, Run(size, file, init), t.h, t.a);
      FileFollowsLog(size, Run(size, file, init), t.h, t.a);
    }
  }

  // The record of one ID after the logged operations: each operation on that ID
  // edits it, the others do not.
  function EditedBy(was: Option<Exemption>, log: seq<Op>, id: string): Option<Exemption> {
    if log == [] then was
    else
      var before, last := EditedBy(was, log[..|log| - 1], id), log[|log| - 1];
      if IdOf(last) == id then Edited(before, last) else before
  }

  lemma {:induction false} SequentialById(initial: seq<Exemption>, log: seq<Op>, id: string)
    requires UniqueIds(initial) && Sequential(initial, log).Some?
    ensures UniqueIds(Sequential(initial, log).value)
    ensures Held(Sequential(initial, log).value, id) == EditedBy(Held(initial, id), log, id)
  {
    hide UniqueIds, Apply, Held, Edited, Without;
    if log != [] {
      var mid, last := Sequential(initial, log[..|log| - 1]).value, log[|log| - 1];
      SequentialById(initial, log[..|log| - 1], id);
      IdsStayUnique(mid, last);
      ApplyEditsItsRecord(mid, last);
      if IdOf(last) != id {
        HeldElsewhere(mid, IdOf(last), id);
        HeldElsewhere(Apply(mid, last).value, IdOf(last), id);
      }
    }
  }

  // In every interleaving each record's presence and fields are those that the
  // logged operations on its own ID leave, whatever was done to other records.
  lemma EveryRecordIsAccountedFor(size: Sizer, file: File, initial: seq<Exemption>, turns: seq<Turn>, id: string)
    requires Load(size, file) == Some(initial)
    ensures var s := Run(size, file, turns);
            var now := if s.file.Records? then s.file.rs else [];
            Held(now, id) == EditedBy(Held(initial, id), s.log, id)
  {
    hide Run, Held, EditedBy, UniqueIds, Inv;
    NoLostUpdates(size, file, initial, turns);
    var s := Run(size, file, turns);
    FileHolds(size, file, initial);
    SequentialById(initial, s.log, id);
    assert s.log == [] ==> EditedBy(Held(initial, id), s.log, id) == Held(initial, id) by { NothingLogged(Held(initial, id), id); }
  }

  lemma NothingLogged(was: Option<Exemption>, id: string)
    ensures EditedBy(was, [], id) == was
  {
  }

  lemma FileHolds(size: Sizer, file: File, initial: seq<Exemption>)
    requires Load(size, file) == Some(initial)
    ensures UniqueIds(initial) && initial == if file.Records? then file.rs else []
  {
  }

  // A file that does not load is never changed again, by any run of any handles.
  lemma {:induction false} UnreadableFileStays(size: Sizer, file: File, turns: seq<Turn>)
    requires Load(size, file).None?
    ensures var s := Run(size, file, turns);
            s.file == file && s.log == [] && forall h: Handle :: !StageOf(s, h).Loaded?
  {
    if turns != [] {
      var init, t := turns[..|turns| - 1], turns[|turns| - 1];
      UnreadableFileStays(size, file, init);
      var before := Run(size, file, init);
      var after := Step(size, before, t.h, t.a);
      assert forall g: Handle :: g != t.h ==> StageOf(after, g) == StageOf(before, g);
    }
  }

  lemma InitialInv(size: Sizer, file: File, initial: seq<Exemption>)
    requires Load(size, file) == Some(initial)
    ensures Inv(size, initial, System(file, None, map[], []))
  {
  }

  lemma FileFollowsLog(size: Sizer, s: System, h: Handle, a: Action)
    ensures var t := Step(size, s, h, a);
            (t.log == s.log && t.file == s.file) || (|t.log| == |s.log| + 1 && t.file.Records?)
  {
    hide Load, Apply;
  }
}
