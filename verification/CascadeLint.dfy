// The deferred-cascade linter: local checks on a receipt list that add up to a
// global statement, every resolved deferral sits in a tree at its stated depth.
module CascadeLint {
  import opened Optional

  datatype Phase = Defer | Resolution | Other

  datatype Cascade = Cascade(parent: string, depth: int, linkage: string)

  // A resolution policy after parsing; an absent policy is Policy(0, None).
  datatype Policy = MalformedPolicy | Policy(maxCascadeDepth: int, cascade: Option<Cascade>)

  datatype Receipt = Receipt(deferId: string, phase: Phase, policy: Policy)

  const LINKAGE := "session_pending_ancestor"

  datatype Admission = Admission(index: nat, policy: Policy)

  datatype Resolved = Resolved(index: nat, depth: int, parent: string)

  datatype Tables = Tables(admissions: map<string, Admission>, resolutions: map<string, Resolved>)

  // ---- One receipt -------------------------------------------------------

  predicate IsAdmission(r: Receipt) { r.deferId != "" && r.phase.Defer? }

  // A resolution that carries cascade metadata, or a malformed one.
  predicate IsCascade(r: Receipt) {
    r.deferId != "" && r.phase.Resolution? && (r.policy.MalformedPolicy? || r.policy.cascade.Some?)
  }

  // The checks of the first loop on the resolution at index i.
  predicate ResolutionOk(t: Tables, i: nat, r: Receipt)
    requires IsCascade(r)
  {
    && r.policy.Policy?
    && var c := r.policy.cascade.value;
       && r.deferId in t.admissions
       && (c.parent != "" ==> c.parent in t.admissions && t.admissions[c.parent].index < i)
       && c.depth > 0
       && (c.parent == "" ==> c.depth == 1)
       && (c.linkage == "" || c.linkage == LINKAGE)
       && (var bound := t.admissions[r.deferId].policy;
           bound.Policy? && bound.maxCascadeDepth > 0 ==> c.depth <= bound.maxCascadeDepth)
       && r.deferId !in t.resolutions
  }

  // None is a lint error.
  function Record(t: Tables, i: nat, r: Receipt): Option<Tables> {
    if IsAdmission(r) then
      if r.policy.MalformedPolicy? then None
      else Some(t.(admissions := t.admissions[r.deferId := Admission(i, r.policy)]))
    else if IsCascade(r) then
      if ResolutionOk(t, i, r) then
        var c := r.policy.cascade.value;
        Some(t.(resolutions := t.resolutions[r.deferId := Resolved(i, c.depth, c.parent)]))
      else None
    else Some(t)
  }

  function Collect(rs: seq<Receipt>): Option<Tables> {
    if rs == [] then Some(Tables(map[], map[]))
    else
      match Collect(rs[..|rs| - 1])
      case None => None
      case Some(t) => Record(t, |rs| - 1, rs[|rs| - 1])
  }

  // The check of the second loop on one resolution.
  predicate LinkOk(m: map<string, Resolved>, id: string)
    requires id in m
  {
    m[id].parent == "" || (m[id].parent in m && m[id].depth == m[m[id].parent].depth + 1)
  }

  // ---- The linter --------------------------------------------------------

  // The second loop visits the resolutions in an arbitrary order; its verdict
  // does not depend on it.
  method Lint(receipts: seq<Receipt>) returns (ok: bool)
    ensures ok <==> Accepted(receipts)
  {
    var admissions: map<string, Admission>, resolutions: map<string, Resolved> := map[], map[];
    assert receipts[..0] == [];
    for i := 0 to |receipts|
      invariant Collect(receipts[..i]) == Some(Tables(admissions, resolutions))
    {
      var r := receipts[i];
      assert receipts[..i + 1][..i] == receipts[..i];
      CollectFails(receipts, i + 1);
      if r.deferId == "" { continue; }
      if r.phase.Defer? {
        if r.policy.MalformedPolicy? { return false; }
        admissions := admissions[r.deferId := Admission(i, r.policy)];
        continue;
      }
      if !r.phase.Resolution? { continue; }
      if r.policy.MalformedPolicy? { return false; }
      if r.policy.cascade.None? { continue; }
      var cascade := r.policy.cascade.value;
      if r.deferId !in admissions { return false; }
      var admission := admissions[r.deferId];
      if cascade.parent != "" {
        if cascade.parent !in admissions || admissions[cascade.parent].index >= i { return false; }
      }
      if cascade.depth <= 0 { return false; }
      if cascade.parent == "" && cascade.depth != 1 { return false; }
      if cascade.linkage != "" && cascade.linkage != LINKAGE { return false; }
      if admission.policy.Policy? && admission.policy.maxCascadeDepth > 0 && cascade.depth > admission.policy.maxCascadeDepth {
        return false;
      }
      if r.deferId in resolutions { return false; }
      resolutions := resolutions[r.deferId := Resolved(i, cascade.depth, cascade.parent)];
    }
    assert receipts[..|receipts|] == receipts;
    var todo := resolutions.Keys;
    while todo != {}
      invariant todo <= resolutions.Keys
      invariant forall id :: id in resolutions && id !in todo ==> LinkOk(resolutions, id)
      decreases todo
    {
      var id :| id in todo;
      todo := todo - {id};
      var res := resolutions[id];
      if res.parent == "" { continue; }
      if res.parent !in resolutions { return false; }
      if res.depth != resolutions[res.parent].depth + 1 { return false; }
    }
    return true;
  }

  lemma {:induction false} CollectFails(rs: seq<Receipt>, n: nat)
    requires n <= |rs|
    ensures Collect(rs[..n]).None? ==> Collect(rs).None?
    decreases |rs| - n
  {
    hide Record;
    if n == |rs| {
      assert rs[..n] == rs;
    } else {
      assert rs[..n + 1][..n] == rs[..n];
      CollectFails(rs, n + 1);
    }
  }

  // ---- What acceptance means --------------------------------------------

  ghost predicate Accepted(rs: seq<Receipt>) {
    Collect(rs).Some? && var m := Collect(rs).value.resolutions; forall id :: id in m ==> LinkOk(m, id)
  }

  // Following parents for exactly n hops from id ends at a root.
  predicate RootAfter(m: map<string, Resolved>, id: string, n: nat)
    decreases n
  {
    id in m && if n == 0 then m[id].parent == "" else m[id].parent != "" && RootAfter(m, m[id].parent, n - 1)
  }

  // The first loop leaves behind only positive depths, and depth one at roots.
  ghost predicate DepthsSane(m: map<string, Resolved>) {
    forall id :: id in m ==> m[id].depth > 0 && (m[id].parent == "" ==> m[id].depth == 1)
  }

  lemma {:induction false} CollectedDepths(rs: seq<Receipt>)
    requires Collect(rs).Some?
    ensures DepthsSane(Collect(rs).value.resolutions)
  {
    if rs != [] {
      CollectedDepths(rs[..|rs| - 1]);
    }
  }

  lemma {:induction false} LinkedReachesRoot(m: map<string, Resolved>, id: string)
    requires DepthsSane(m) && (forall x :: x in m ==> LinkOk(m, x)) && id in m
    ensures RootAfter(m, id, m[id].depth - 1)
    decreases m[id].depth
  {
    assert LinkOk(m, id);
    if m[id].parent != "" {
      LinkedReachesRoot(m, m[id].parent);
    }
  }

  // A chain has one length.
  lemma {:induction false} ChainLengthIsUnique(m: map<string, Resolved>, id: string, n: nat, k: nat)
    requires RootAfter(m, id, n) && RootAfter(m, id, k)
    ensures n == k
    decreases n
  {
    if n > 0 && k > 0 {
      ChainLengthIsUnique(m, m[id].parent, n - 1, k - 1);
    }
  }

  // The second loop's local check is exactly the global property: every
  // resolved ID reaches a root in depth - 1 parent hops (so there are no cycles).
  lemma LintAcceptsExactlyForests(rs: seq<Receipt>)
    requires Collect(rs).Some?
    ensures Accepted(rs) <==> Forest(Collect(rs).value.resolutions)
  {
    hide RootAfter, Collect;
    var m := Collect(rs).value.resolutions;
    CollectedDepths(rs);
    if Accepted(rs) {
      forall id | id in m ensures m[id].depth >= 1 && RootAfter(m, id, m[id].depth - 1) {
        LinkedReachesRoot(m, id);
      }
    }
    if Forest(m) {
      forall id | id in m ensures LinkOk(m, id) {
        ForestIsLinked(m, id);
      }
    }
  }

  ghost predicate Forest(m: map<string, Resolved>) {
    forall id :: id in m ==> m[id].depth >= 1 && RootAfter(m, id, m[id].depth - 1)
  }

  lemma ForestIsLinked(m: map<string, Resolved>, id: string)
    requires Forest(m) && id in m
    ensures LinkOk(m, id)
  {
    var parent := m[id].parent;
    if parent != "" {
      assert RootAfter(m, id, m[id].depth - 1);
      assert RootAfter(m, parent, m[id].depth - 2);
      ChainLengthIsUnique(m, parent, m[id].depth - 2, m[parent].depth - 1);
    }
  }

  // n parent hops from id, staying among the resolved IDs.
  function Ancestor(m: map<string, Resolved>, id: string, n: nat): Option<string>
    decreases n
  {
    if id !in m then None
    else if n == 0 then Some(id)
    else if m[id].parent == "" then None
    else Ancestor(m, m[id].parent, n - 1)
  }

  lemma {:induction false} AncestorDepth(m: map<string, Resolved>, id: string, n: nat)
    requires forall x :: x in m ==> LinkOk(m, x)
    requires Ancestor(m, id, n).Some?
    ensures id in m && Ancestor(m, id, n).value in m && m[Ancestor(m, id, n).value].depth == m[id].depth - n
    decreases n
  {
    if n > 0 {
      assert LinkOk(m, id);
      AncestorDepth(m, m[id].parent, n - 1);
    }
  }

  // In particular nothing is its own ancestor.
  lemma NoCycles(rs: seq<Receipt>, id: string, n: nat)
    requires Accepted(rs) && n > 0
    ensures Ancestor(Collect(rs).value.resolutions, id, n) != Some(id)
  {
    var m := Collect(rs).value.resolutions;
    if Ancestor(m, id, n).Some? {
      AncestorDepth(m, id, n);
    }
  }

  // ---- Order and bounds within the list ---------------------------------

  // Receipt i resolves id with cascade metadata.
  predicate Resolves(rs: seq<Receipt>, i: nat, id: string) {
    i < |rs| && IsCascade(rs[i]) && rs[i].policy.Policy? && rs[i].deferId == id
  }

  // The last admission of id before position n.
  ghost predicate LastAdmission(rs: seq<Receipt>, n: nat, id: string, a: nat) {
    && a < n <= |rs| && Deferral(rs[a]) && rs[a].deferId == id
    && forall k :: a < k < n && Deferral(rs[k]) ==> rs[k].deferId != id
  }

  ghost predicate AdmissionOk(rs: seq<Receipt>, n: nat, id: string, a: Admission) {
    LastAdmission(rs, n, id, a.index) && a.policy == rs[a.index].policy
  }

  ghost predicate TablesOk(rs: seq<Receipt>, n: nat, t: Tables)
    requires n <= |rs|
  {
    && (forall id :: id in t.admissions ==> AdmissionOk(rs, n, id, t.admissions[id]))
    && (forall id :: id in t.resolutions ==>
          && var x := t.resolutions[id];
          && x.index < n && Resolves(rs, x.index, id)
          && rs[x.index].policy.cascade.value.depth == x.depth && rs[x.index].policy.cascade.value.parent == x.parent
          && Backed(rs, x, id))
    && (forall i :: 0 <= i < n && IsCascade(rs[i]) ==>
          rs[i].deferId in t.resolutions && t.resolutions[rs[i].deferId].index == i)
    && (forall i :: 0 <= i < n && IsAdmission(rs[i]) ==> rs[i].deferId in t.admissions)
  }

  // The resolution's latest admission precedes it and bounds its depth, and so
  // does an admission of its parent.
  ghost predicate Backed(rs: seq<Receipt>, x: Resolved, id: string) {
    && (exists a: nat :: LastAdmission(rs, x.index, id, a)
                    && (rs[a].policy.Policy? && rs[a].policy.maxCascadeDepth > 0 ==> x.depth <= rs[a].policy.maxCascadeDepth))
    && (x.parent != "" ==> exists a: nat :: LastAdmission(rs, x.index, x.parent, a))
  }

  lemma AdmissionStep(rs: seq<Receipt>, n: nat, id: string, a: Admission)
    requires n < |rs| && AdmissionOk(rs, n, id, a) && !(IsAdmission(rs[n]) && rs[n].deferId == id)
    ensures AdmissionOk(rs, n + 1, id, a)
  {
  }

  lemma FreshAdmission(rs: seq<Receipt>, n: nat)
    requires n < |rs| && IsAdmission(rs[n])
    ensures AdmissionOk(rs, n + 1, rs[n].deferId, Admission(n, rs[n].policy))
  {
  }

  lemma RecordKeepsTables(rs: seq<Receipt>, n: nat, t: Tables)
    requires n < |rs| && TablesOk(rs, n, t) && Record(t, n, rs[n]).Some?
    ensures TablesOk(rs, n + 1, Record(t, n, rs[n]).value)
  {
    hide Backed, AdmissionOk, ResolutionOk;
    var u := Record(t, n, rs[n]).value;
    forall id | id in u.admissions ensures AdmissionOk(rs, n + 1, id, u.admissions[id]) {
      if IsAdmission(rs[n]) && rs[n].deferId == id {
        FreshAdmission(rs, n);
      } else {
        AdmissionStep(rs, n, id, t.admissions[id]);
      }
    }
    if IsCascade(rs[n]) {
      BackedNow(rs, n, t);
    }
  }

  lemma BackedNow(rs: seq<Receipt>, n: nat, t: Tables)
    requires n < |rs| && TablesOk(rs, n, t) && IsCascade(rs[n]) && Record(t, n, rs[n]).Some?
    ensures rs[n].deferId !in t.resolutions && rs[n].policy.Policy?
    ensures Backed(rs, Record(t, n, rs[n]).value.resolutions[rs[n].deferId], rs[n].deferId)
  {
    var c := rs[n].policy.cascade.value;
    var a := t.admissions[rs[n].deferId].index;
    assert LastAdmission(rs, n, rs[n].deferId, a);
    if c.parent != "" {
      assert LastAdmission(rs, n, c.parent, t.admissions[c.parent].index);
    }
  }

  lemma {:induction false} CollectedTables(rs: seq<Receipt>, n: nat)
    requires n <= |rs| && Collect(rs[..n]).Some?
    ensures TablesOk(rs, n, Collect(rs[..n]).value)
  {
    hide Record, TablesOk;
    if n == 0 {
      assert TablesOk(rs, 0, Tables(map[], map[])) by { EmptyTables(rs); }
    } else {
      assert rs[..n][..n - 1] == rs[..n - 1];
      CollectedTables(rs, n - 1);
      RecordKeepsTables(rs, n - 1, Collect(rs[..n - 1]).value);
    }
  }

  lemma EmptyTables(rs: seq<Receipt>)
    ensures TablesOk(rs, 0, Tables(map[], map[]))
  {
  }

  // ---- The verdict, without the linter's tables ---------------------------

  // What the first loop demands of receipt i: a well-formed policy and, for a
  // resolution with cascade metadata, that it is the first for its ID, backed by
  // the latest admissions before it, positive in depth and one deep at a root.
  ghost predicate SoundAt(rs: seq<Receipt>, i: nat)
    requires i < |rs|
  {
    && (Deferral(rs[i]) || Resolving(rs[i]) ==> rs[i].policy != MalformedPolicy)
    && (Cascading(rs[i]) ==>
          var c := rs[i].policy.cascade.value;
          && c.depth >= 1 && (c.parent == "" ==> c.depth == 1)
          && (c.linkage == "" || c.linkage == "session_pending_ancestor")
          && Backed(rs, Resolved(i, c.depth, c.parent), rs[i].deferId)
          && forall j :: 0 <= j < i && Cascading(rs[j]) ==> rs[j].deferId != rs[i].deferId)
  }

  ghost predicate Deferral(r: Receipt) { r.deferId != "" && r.phase == Defer }

  ghost predicate Resolving(r: Receipt) { r.deferId != "" && r.phase == Resolution }

  ghost predicate Cascading(r: Receipt) { Resolving(r) && r.policy.Policy? && r.policy.cascade.Some? }

  lemma LastAdmissionIsUnique(rs: seq<Receipt>, n: nat, id: string, a: nat, b: nat)
    requires LastAdmission(rs, n, id, a) && LastAdmission(rs, n, id, b)
    ensures a == b
  {
  }

  lemma AdmittedIffLast(rs: seq<Receipt>, n: nat, t: Tables, id: string)
    requires n <= |rs| && TablesOk(rs, n, t)
    ensures id in t.admissions <==> exists a: nat :: LastAdmission(rs, n, id, a)
    ensures forall a: nat :: LastAdmission(rs, n, id, a) ==> id in t.admissions && t.admissions[id] == Admission(a, rs[a].policy)
  {
    hide Backed;
    if id in t.admissions {
      assert AdmissionOk(rs, n, id, t.admissions[id]);
    }
    forall a: nat | LastAdmission(rs, n, id, a) ensures id in t.admissions && t.admissions[id] == Admission(a, rs[a].policy) {
      assert IsAdmission(rs[a]) && rs[a].deferId == id;
      assert AdmissionOk(rs, n, id, t.admissions[id]);
      LastAdmissionIsUnique(rs, n, id, a, t.admissions[id].index);
    }
  }

  lemma RecordIffSound(rs: seq<Receipt>, n: nat, t: Tables)
    requires n < |rs| && TablesOk(rs, n, t)
    ensures Record(t, n, rs[n]).Some? <==> SoundAt(rs, n)
  {
    hide LastAdmission, AdmissionOk;
    if IsCascade(rs[n]) && rs[n].policy.Policy? {
      var c := rs[n].policy.cascade.value;
      AdmittedIffLast(rs, n, t, rs[n].deferId);
      AdmittedIffLast(rs, n, t, c.parent);
      EarlierIndex(rs, n, t, c.parent);
      SeenBefore(rs, n, t, rs[n].deferId);
    }
  }

  lemma EarlierIndex(rs: seq<Receipt>, n: nat, t: Tables, id: string)
    requires n < |rs| && TablesOk(rs, n, t)
    ensures id in t.admissions ==> t.admissions[id].index < n
  {
  }

  lemma SeenBefore(rs: seq<Receipt>, n: nat, t: Tables, id: string)
    requires n < |rs| && TablesOk(rs, n, t)
    ensures id in t.resolutions <==> exists j :: 0 <= j < n && IsCascade(rs[j]) && rs[j].deferId == id
  {
    hide Backed, AdmissionOk;
  }

  lemma {:induction false} CollectsExactly(rs: seq<Receipt>, n: nat)
    requires n <= |rs|
    ensures Collect(rs[..n]).Some? <==> forall i :: 0 <= i < n ==> SoundAt(rs, i)
  {
    hide Record, TablesOk, SoundAt;
    if n > 0 {
      assert rs[..n][..n - 1] == rs[..n - 1];
      CollectsExactly(rs, n - 1);
      if Collect(rs[..n - 1]).Some? {
        CollectedTables(rs, n - 1);
        RecordIffSound(rs, n - 1, Collect(rs[..n - 1]).value);
      }
    }
  }

  // n parent hops lead from resolution i through resolutions of the list to a root.
  ghost predicate ReachesRoot(rs: seq<Receipt>, i: nat, n: nat)
    decreases n
  {
    && i < |rs| && Cascading(rs[i])
    && var parent := rs[i].policy.cascade.value.parent;
       if n == 0 then parent == ""
       else parent != "" && exists j: nat :: j < |rs| && rs[j].deferId == parent && ReachesRoot(rs, j, n - 1)
  }

  lemma {:induction false} RootsAgree(rs: seq<Receipt>, t: Tables, id: string, n: nat)
    requires TablesOk(rs, |rs|, t) && id in t.resolutions
    ensures ReachesRoot(rs, t.resolutions[id].index, n) <==> RootAfter(t.resolutions, id, n)
    decreases n
  {
    hide Backed, AdmissionOk;
    var x := t.resolutions[id];
    if n > 0 && x.parent != "" {
      if ReachesRoot(rs, x.index, n) {
        var j: nat :| j < |rs| && rs[j].deferId == x.parent && ReachesRoot(rs, j, n - 1);
        assert x.parent in t.resolutions && t.resolutions[x.parent].index == j;
        RootsAgree(rs, t, x.parent, n - 1);
      }
      if RootAfter(t.resolutions, id, n) {
        assert RootAfter(t.resolutions, x.parent, n - 1);
        RootsAgree(rs, t, x.parent, n - 1);
        assert rs[t.resolutions[x.parent].index].deferId == x.parent;
      }
    }
  }

  // Resolution i sits in a tree of the list at its stated depth.
  ghost predicate AtItsDepth(rs: seq<Receipt>, i: nat) {
    i < |rs| && rs[i].policy.Policy? && rs[i].policy.cascade.Some? && rs[i].policy.cascade.value.depth >= 1
    && ReachesRoot(rs, i, rs[i].policy.cascade.value.depth - 1)
  }

  lemma ForestByPosition(rs: seq<Receipt>, t: Tables)
    requires TablesOk(rs, |rs|, t)
    ensures Forest(t.resolutions) <==> forall i :: 0 <= i < |rs| && Cascading(rs[i]) ==> AtItsDepth(rs, i)
  {
    hide Backed, AdmissionOk, ReachesRoot, RootAfter;
    var m := t.resolutions;
    if Forest(m) {
      forall i | 0 <= i < |rs| && Cascading(rs[i]) ensures AtItsDepth(rs, i) {
        assert IsCascade(rs[i]);
        RootsAgree(rs, t, rs[i].deferId, m[rs[i].deferId].depth - 1);
      }
    }
    if forall i :: 0 <= i < |rs| && Cascading(rs[i]) ==> AtItsDepth(rs, i) {
      forall id | id in m ensures m[id].depth >= 1 && RootAfter(m, id, m[id].depth - 1) {
        assert AtItsDepth(rs, m[id].index);
        RootsAgree(rs, t, id, m[id].depth - 1);
      }
    }
  }

  // The linter accepts exactly the lists in which every receipt is sound and
  // every cascade resolution reaches a root in depth - 1 parent hops.
  lemma LintVerdict(rs: seq<Receipt>)
    ensures Accepted(rs) <==>
            && (forall i :: 0 <= i < |rs| ==> SoundAt(rs, i))
            && (forall i :: 0 <= i < |rs| && Cascading(rs[i]) ==> AtItsDepth(rs, i))
  {
    hide Collect, LinkOk, SoundAt, AtItsDepth, TablesOk, Forest, IsCascade, Cascading;
    assert rs[..|rs|] == rs;
    CollectsExactly(rs, |rs|);
    if Collect(rs).Some? {
      CollectedTables(rs, |rs|);
      LintAcceptsExactlyForests(rs);
      ForestByPosition(rs, Collect(rs).value);
    }
  }
}
