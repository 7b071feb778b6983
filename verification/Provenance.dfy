// The evidence-provenance fixture verifier: a hash chain of signed proofs, views
// reproduced from supplied sources, coordinates and commitments.
module Provenance {
  import opened Optional
  import opened Utf8
  import opened RecipeEncoding
  import ViewCacheKey
  import Lines

  // A string as its bytes.
  type SourceId = Lines.Bytes

  // A base64 field after decoding.
  datatype B64 = OverLimit | Undecodable | Decoded(bytes: Bytes)

  datatype Entry = Entry(signed: B64, signature: Option<Bytes>)

  datatype Match = Match(at: Interval, commitment: string)

  datatype Source = Source(sourceId: SourceId, recipe: Recipe, viewCommitment: string, matches: seq<Match>)

  datatype SignedProof = SignedProof(
    chainSeq: nat, chainPrevHash: string, criticalFeatures: seq<string>, sources: seq<Source>,
    binaryDigest: Option<string>, rulesetDigest: Option<string>)

  datatype Supplied = Supplied(sourceId: SourceId, bytes: B64)

  datatype KeyInput = NoKey | BadKey | Key(key: Bytes)

  // publicKey is None when the hex is malformed or not 32 bytes long.
  datatype Fixture = Fixture(
    format: string, entries: seq<Entry>, publicKey: Option<Bytes>, commitmentKey: KeyInput,
    supplied: seq<Supplied>, binary: Option<B64>, ruleset: Option<B64>)

  // A recipe run on a source: the bytes it charges, in order, and the view it
  // then yields, or None for an error.  Neither depends on the budget.
  datatype Execution = Execution(charges: seq<nat>, result: Option<Bytes>)

  // The same run under a budget.
  datatype Applied = View(view: Bytes, charged: nat) | OverBudget(charged: nat) | Failed(charged: nat)

  // Strict JSON decoding, signatures, hashing, recipes and commitments, uninterpreted.
  datatype Env = Env(
    decode: Bytes -> Option<SignedProof>,
    verifies: (Bytes, Bytes, Bytes) -> bool,
    sha256: Bytes -> string,
    proofValid: SignedProof -> bool,
    run: (Recipe, Bytes) -> Execution,
    commitView: (Bytes, Source, Bytes) -> Option<string>,
    commitMatch: (Bytes, Source, Match) -> Option<string>)

  datatype Report = Report(
    signature: string, chain: string, artifacts: string, viewReproduction: string, location: string,
    matchCommitment: string, overall: string, failureStage: string)

  const FORMAT := "pipelock-evidence-provenance-verification-fixture/v1"
  const FEATURE := "evidence_provenance"
  const MAX_ENTRIES := 32
  const MAX_SOURCES := 32
  const MAX_MATCHES := 1024
  const MAX_REFERENCES := 128
  const MAX_CHECKS := 4096
  const MAX_TOTAL_SOURCE_BYTES := 0x100_0000
  const MAX_RECIPE_WORK := 0x400_0000

  const INITIAL := Report("not_checked", "not_checked", "attested_unchecked", "not_checked", "not_checked",
                          "not_checked", "incomplete", "")

  function Reject(r: Report, stage: string): Report { r.(overall := "invalid", failureStage := stage) }

  // ---- Signatures --------------------------------------------------------

  datatype Status = Structural | BadSignature | Good(raw: Bytes, proof: SignedProof)

  function EntryStatus(env: Env, key: Bytes, e: Entry): Status {
    if e.signed.OverLimit? then Structural
    else if e.signed.Undecodable? || !Valid(e.signed.bytes) || e.signature.None? then BadSignature
    else
      match env.decode(e.signed.bytes)
      case None => Structural
      case Some(p) =>
        if |p.sources| > MAX_SOURCES || exists i :: 0 <= i < |p.sources| && |p.sources[i].matches| > MAX_MATCHES
        then Structural
        else if env.verifies(key, e.signed.bytes, e.signature.value) then Good(e.signed.bytes, p)
        else BadSignature
  }

  ghost predicate CountsWithinLimits(p: SignedProof) {
    |p.sources| <= 32 && forall i :: 0 <= i < |p.sources| ==> |p.sources[i].matches| <= 1024
  }

  // What each status says about the entry.
  lemma EntryStatusExactly(env: Env, key: Bytes, e: Entry, raw: Bytes, p: SignedProof)
    ensures EntryStatus(env, key, e) == Good(raw, p) <==>
            && e.signed == Decoded(raw) && Valid(raw) && e.signature.Some? && env.decode(raw) == Some(p)
            && CountsWithinLimits(p) && env.verifies(key, raw, e.signature.value)
    ensures EntryStatus(env, key, e) == Structural <==>
            || e.signed == OverLimit
            || (&& e.signed.Decoded? && Valid(e.signed.bytes) && e.signature.Some?
                && (env.decode(e.signed.bytes).None? || !CountsWithinLimits(env.decode(e.signed.bytes).value)))
    ensures EntryStatus(env, key, e) == BadSignature <==>
            || e.signed == Undecodable
            || (e.signed.Decoded? && (!Valid(e.signed.bytes) || e.signature.None?))
            || (&& e.signed.Decoded? && Valid(e.signed.bytes) && e.signature.Some? && env.decode(e.signed.bytes).Some?
                && CountsWithinLimits(env.decode(e.signed.bytes).value)
                && !env.verifies(key, e.signed.bytes, e.signature.value))
  {
    hide Valid;
  }

  // Every entry's bytes are signed by the fixture's key and decode to its proof.
  ghost predicate SignaturesHold(env: Env, f: Fixture, raws: seq<Bytes>, proofs: seq<SignedProof>) {
    && f.publicKey.Some? && |raws| == |proofs| == |f.entries|
    && forall i :: 0 <= i < |raws| ==> EntryHolds(env, f.publicKey.value, f.entries[i], raws[i], proofs[i])
  }

  ghost predicate EntryHolds(env: Env, key: Bytes, e: Entry, raw: Bytes, p: SignedProof) {
    && e.signed == Decoded(raw) && Valid(raw) && e.signature.Some? && env.verifies(key, raw, e.signature.value)
    && env.decode(raw) == Some(p) && CountsWithinLimits(p)
  }

  lemma SignedMeans(env: Env, f: Fixture, raws: seq<Bytes>, proofs: seq<SignedProof>)
    ensures AllSigned(env, f, raws, proofs) <==> SignaturesHold(env, f, raws, proofs)
  {
    hide EntryStatus, Valid, CountsWithinLimits;
    if |raws| == |proofs| == |f.entries| && f.publicKey.Some? {
      forall i | 0 <= i < |raws|
        ensures EntryStatus(env, f.publicKey.value, f.entries[i]) == Good(raws[i], proofs[i]) <==>
                EntryHolds(env, f.publicKey.value, f.entries[i], raws[i], proofs[i])
      {
        EntryStatusExactly(env, f.publicKey.value, f.entries[i], raws[i], proofs[i]);
      }
    }
  }

  ghost predicate AllSigned(env: Env, f: Fixture, raws: seq<Bytes>, proofs: seq<SignedProof>) {
    && f.publicKey.Some? && |raws| == |proofs| == |f.entries|
    && forall i :: 0 <= i < |raws| ==> EntryStatus(env, f.publicKey.value, f.entries[i]) == Good(raws[i], proofs[i])
  }

  // Entry i is the first that is not in order.
  ghost predicate FirstBad(env: Env, f: Fixture, i: nat, s: Status) {
    && f.publicKey.Some? && i < |f.entries| && !s.Good? && s == EntryStatus(env, f.publicKey.value, f.entries[i])
    && forall k :: 0 <= k < i ==> EntryStatus(env, f.publicKey.value, f.entries[k]).Good?
  }

  method CheckSignatures(env: Env, f: Fixture) returns (failure: Option<Status>, raws: seq<Bytes>, proofs: seq<SignedProof>)
    requires f.publicKey.Some?
    ensures failure.None? ==> AllSigned(env, f, raws, proofs) && SignaturesHold(env, f, raws, proofs)
    ensures failure.Some? ==> !failure.value.Good? && exists i: nat :: FirstBad(env, f, i, failure.value)
  {
    hide EntryStatus;
    raws, proofs := [], [];
    for i := 0 to |f.entries|
      invariant |raws| == |proofs| == i
      invariant forall k :: 0 <= k < i ==> EntryStatus(env, f.publicKey.value, f.entries[k]) == Good(raws[k], proofs[k])
    {
      var s := EntryStatus(env, f.publicKey.value, f.entries[i]);
      match s {
        case Good(raw, proof) => raws, proofs := raws + [raw], proofs + [proof];
        case _ =>
          assert FirstBad(env, f, i, s);
          return Some(s), raws, proofs;
      }
    }
    SignedMeans(env, f, raws, proofs);
    return None, raws, proofs;
  }

  // ---- The hash chain ----------------------------------------------------

  function WantPrev(env: Env, raws: seq<Bytes>, i: nat): string
    requires i <= |raws|
  {
    if i == 0 then "genesis" else Labelled(env, raws[i - 1])
  }

  function Labelled(env: Env, data: Bytes): string { "sha256:" + env.sha256(data) }

  ghost predicate ChainOk(env: Env, raws: seq<Bytes>, proofs: seq<SignedProof>) {
    |raws| == |proofs| && forall i :: 0 <= i < |proofs| ==>
      proofs[i].chainSeq == i && proofs[i].chainPrevHash == WantPrev(env, raws, i)
  }

  // Positions count from zero, and each entry names the hash of the one before.
  ghost predicate ChainHolds(env: Env, raws: seq<Bytes>, proofs: seq<SignedProof>) {
    |raws| == |proofs| && forall i :: 0 <= i < |proofs| ==>
      && proofs[i].chainSeq == i
      && proofs[i].chainPrevHash == if i == 0 then "genesis" else "sha256:" + env.sha256(raws[i - 1])
  }

  lemma ChainMeans(env: Env, raws: seq<Bytes>, proofs: seq<SignedProof>)
    ensures ChainOk(env, raws, proofs) <==> ChainHolds(env, raws, proofs)
  {
    if |raws| == |proofs| {
      assert forall i :: 0 <= i < |proofs| ==>
        WantPrev(env, raws, i) == if i == 0 then "genesis" else "sha256:" + env.sha256(raws[i - 1]);
    }
  }

  method CheckChain(env: Env, raws: seq<Bytes>, proofs: seq<SignedProof>) returns (ok: bool)
    requires |raws| == |proofs|
    ensures ok <==> ChainHolds(env, raws, proofs)
    ensures ok <==> ChainOk(env, raws, proofs)
  {
    ChainMeans(env, raws, proofs);
    for i := 0 to |proofs|
      invariant forall k :: 0 <= k < i ==>
        proofs[k].chainSeq == k && proofs[k].chainPrevHash == WantPrev(env, raws, k)
    {
      if proofs[i].chainSeq != i || proofs[i].chainPrevHash != WantPrev(env, raws, i) { return false; }
    }
    return true;
  }

  ghost predicate InjectiveHash(env: Env) {
    forall a, b :: env.sha256(a) == env.sha256(b) ==> a == b
  }

  // The last signed bytes bind the whole chain before them.
  lemma {:induction false} LastEntryBindsChain(env: Env, f: Fixture, g: Fixture, raws1: seq<Bytes>, proofs1: seq<SignedProof>,
                                               raws2: seq<Bytes>, proofs2: seq<SignedProof>)
    requires InjectiveHash(env)
    requires AllSigned(env, f, raws1, proofs1) && ChainOk(env, raws1, proofs1)
    requires AllSigned(env, g, raws2, proofs2) && ChainOk(env, raws2, proofs2)
    requires raws1 != [] && raws2 != [] && raws1[|raws1| - 1] == raws2[|raws2| - 1]
    ensures raws1 == raws2
  {
    hide EntryStatus, Valid, AllSigned, WantPrev, InjectiveHash;
    DecodedFrom(env, f, raws1, proofs1);
    DecodedFrom(env, g, raws2, proofs2);
    assert proofs1[|raws1| - 1] == proofs2[|raws2| - 1];
    assert |raws1| - 1 == proofs1[|raws1| - 1].chainSeq == |raws2| - 1;
    ChainsAgreeBelow(env, raws1, proofs1, raws2, proofs2, |raws1| - 1);
  }

  ghost predicate Decodes(env: Env, raws: seq<Bytes>, proofs: seq<SignedProof>) {
    |raws| == |proofs| && forall i :: 0 <= i < |raws| ==> env.decode(raws[i]) == Some(proofs[i])
  }

  lemma {:induction false} ChainsAgreeBelow(env: Env, raws1: seq<Bytes>, proofs1: seq<SignedProof>,
                                            raws2: seq<Bytes>, proofs2: seq<SignedProof>, i: nat)
    requires InjectiveHash(env) && Decodes(env, raws1, proofs1) && Decodes(env, raws2, proofs2)
    requires ChainOk(env, raws1, proofs1) && ChainOk(env, raws2, proofs2)
    requires i < |raws1| && i < |raws2| && raws1[i] == raws2[i]
    ensures forall k :: 0 <= k <= i ==> raws1[k] == raws2[k]
  {
    hide ChainOk, Decodes, InjectiveHash;
    if i > 0 {
      OneBack(env, raws1, proofs1, raws2, proofs2, i);
      ChainsAgreeBelow(env, raws1, proofs1, raws2, proofs2, i - 1);
    }
  }

  lemma OneBack(env: Env, raws1: seq<Bytes>, proofs1: seq<SignedProof>,
                raws2: seq<Bytes>, proofs2: seq<SignedProof>, i: nat)
    requires InjectiveHash(env) && Decodes(env, raws1, proofs1) && Decodes(env, raws2, proofs2)
    requires ChainOk(env, raws1, proofs1) && ChainOk(env, raws2, proofs2)
    requires 0 < i < |raws1| && i < |raws2| && raws1[i] == raws2[i]
    ensures raws1[i - 1] == raws2[i - 1]
  {
    hide Labelled, InjectiveHash;
    assert proofs1[i] == proofs2[i];
    assert WantPrev(env, raws1, i) == proofs1[i].chainPrevHash == WantPrev(env, raws2, i);
    SameLabel(env, raws1[i - 1], raws2[i - 1]);
  }

  lemma SameLabel(env: Env, a: Bytes, b: Bytes)
    requires InjectiveHash(env) && Labelled(env, a) == Labelled(env, b)
    ensures a == b
  {
    assert Labelled(env, a)[7..] == env.sha256(a) && Labelled(env, b)[7..] == env.sha256(b);
  }

  lemma DecodedFrom(env: Env, f: Fixture, raws: seq<Bytes>, proofs: seq<SignedProof>)
    requires AllSigned(env, f, raws, proofs)
    ensures Decodes(env, raws, proofs)
  {
    hide Valid;
  }

  // ---- Features, limits, artifacts --------------------------------------

  function References(proofs: seq<SignedProof>): nat {
    if proofs == [] then 0 else References(proofs[..|proofs| - 1]) + |proofs[|proofs| - 1].sources|
  }

  function MatchCount(sources: seq<Source>): nat {
    if sources == [] then 0 else MatchCount(sources[..|sources| - 1]) + |sources[|sources| - 1].matches|
  }

  function Checks(proofs: seq<SignedProof>): nat {
    if proofs == [] then 0 else Checks(proofs[..|proofs| - 1]) + MatchCount(proofs[|proofs| - 1].sources)
  }

  lemma CountSnoc(proofs: seq<SignedProof>, n: nat)
    requires n < |proofs|
    ensures References(proofs[..n + 1]) == References(proofs[..n]) + |proofs[n].sources|
    ensures Checks(proofs[..n + 1]) == Checks(proofs[..n]) + MatchCount(proofs[n].sources)
  {
    assert proofs[..n + 1][..n] == proofs[..n];
  }

  lemma MatchSnoc(sources: seq<Source>, n: nat)
    requires n < |sources|
    ensures MatchCount(sources[..n + 1]) == MatchCount(sources[..n]) + |sources[n].matches|
  {
    assert sources[..n + 1][..n] == sources[..n];
  }

  lemma {:induction false} CountsGrow(proofs: seq<SignedProof>, n: nat)
    requires n <= |proofs|
    ensures References(proofs[..n]) <= References(proofs) && Checks(proofs[..n]) <= Checks(proofs)
    decreases |proofs| - n
  {
    hide References, Checks;
    if n == |proofs| {
      assert proofs[..n] == proofs;
    } else {
      CountSnoc(proofs, n);
      CountsGrow(proofs, n + 1);
    }
  }

  lemma {:induction false} MatchCountGrows(sources: seq<Source>, n: nat)
    requires n <= |sources|
    ensures MatchCount(sources[..n]) <= MatchCount(sources)
    decreases |sources| - n
  {
    hide MatchCount;
    if n == |sources| {
      assert sources[..n] == sources;
    } else {
      MatchSnoc(sources, n);
      MatchCountGrows(sources, n + 1);
    }
  }

  lemma NoCounts()
    ensures References([]) == 0 && Checks([]) == 0 && MatchCount([]) == 0
  {
  }

  // Counting stops at the first excess, but decides the totals.
  method WorkWithinLimits(proofs: seq<SignedProof>) returns (ok: bool)
    ensures ok <==> References(proofs) <= MAX_REFERENCES && Checks(proofs) <= MAX_CHECKS
  {
    hide References, Checks, MatchCount;
    var references, checks := 0, 0;
    NoCounts();
    assert proofs[..0] == [];
    for i := 0 to |proofs|
      invariant references == References(proofs[..i]) <= MAX_REFERENCES
      invariant checks == Checks(proofs[..i]) <= MAX_CHECKS
    {
      CountSnoc(proofs, i);
      CountsGrow(proofs, i + 1);
      var sources := proofs[i].sources;
      assert sources[..0] == [];
      for j := 0 to |sources|
        invariant references == References(proofs[..i]) + j <= MAX_REFERENCES
        invariant checks == Checks(proofs[..i]) + MatchCount(sources[..j]) <= MAX_CHECKS
      {
        MatchSnoc(sources, j);
        MatchCountGrows(sources, j + 1);
        references := references + 1;
        if references > MAX_REFERENCES { return false; }
        checks := checks + |sources[j].matches|;
        if checks > MAX_CHECKS { return false; }
      }
      assert sources[..|sources|] == sources;
    }
    assert proofs[..|proofs|] == proofs;
    return true;
  }

  predicate DigestMatches(env: Env, digest: string, artifact: B64) {
    artifact.Decoded? && digest == "sha256:" + env.sha256(artifact.bytes)
  }

  // One attested digest against the artifact, if both are there.
  predicate ArtifactWrong(env: Env, digest: Option<string>, artifact: Option<B64>) {
    digest.Some? && artifact.Some? && !DigestMatches(env, digest.value, artifact.value)
  }

  predicate Attested(p: SignedProof) { p.binaryDigest.Some? || p.rulesetDigest.Some? }

  predicate Unchecked(p: SignedProof, f: Fixture) {
    (p.binaryDigest.Some? && f.binary.None?) || (p.rulesetDigest.Some? && f.ruleset.None?)
  }

  // A digest, if attested, is that of the artifact supplied.
  ghost predicate DigestHolds(env: Env, digest: Option<string>, artifact: Option<B64>) {
    digest.Some? ==> artifact.Some? && artifact.value.Decoded? && digest.value == "sha256:" + env.sha256(artifact.value.bytes)
  }

  // What the artifact status says about the fixture.
  ghost predicate ArtifactsSay(env: Env, proofs: seq<SignedProof>, f: Fixture, status: string) {
    if status == "matched" then
      && (exists i :: 0 <= i < |proofs| && (proofs[i].binaryDigest.Some? || proofs[i].rulesetDigest.Some?))
      && forall i :: 0 <= i < |proofs| ==>
           DigestHolds(env, proofs[i].binaryDigest, f.binary) && DigestHolds(env, proofs[i].rulesetDigest, f.ruleset)
    else if status == "not_attested" then
      forall i :: 0 <= i < |proofs| ==> proofs[i].binaryDigest.None? && proofs[i].rulesetDigest.None?
    else if status == "attested_unchecked" then
      exists i :: 0 <= i < |proofs| && ((proofs[i].binaryDigest.Some? && f.binary.None?)
                                        || (proofs[i].rulesetDigest.Some? && f.ruleset.None?))
    else
      && status == "mismatch"
      && exists i :: 0 <= i < |proofs| &&
           ((proofs[i].binaryDigest.Some? && f.binary.Some? && !DigestHolds(env, proofs[i].binaryDigest, f.binary))
            || (proofs[i].rulesetDigest.Some? && f.ruleset.Some? && !DigestHolds(env, proofs[i].rulesetDigest, f.ruleset)))
  }

  method VerifyArtifacts(env: Env, proofs: seq<SignedProof>, f: Fixture) returns (status: string, ok: bool)
    ensures ok <==> forall i :: 0 <= i < |proofs| ==>
              !ArtifactWrong(env, proofs[i].binaryDigest, f.binary) && !ArtifactWrong(env, proofs[i].rulesetDigest, f.ruleset)
    ensures !ok <==> status == "mismatch"
    ensures ArtifactsSay(env, proofs, f, status)
    ensures ok ==> status == (if exists i :: 0 <= i < |proofs| && Unchecked(proofs[i], f) then "attested_unchecked"
                              else if exists i :: 0 <= i < |proofs| && Attested(proofs[i]) then "matched" else "not_attested")
  {
    var attested, pending := false, false;
    for i := 0 to |proofs|
      invariant forall k :: 0 <= k < i ==>
        !ArtifactWrong(env, proofs[k].binaryDigest, f.binary) && !ArtifactWrong(env, proofs[k].rulesetDigest, f.ruleset)
      invariant attested <==> exists k :: 0 <= k < i && Attested(proofs[k])
      invariant pending <==> exists k :: 0 <= k < i && Unchecked(proofs[k], f)
    {
      var p := proofs[i];
      if ArtifactWrong(env, p.binaryDigest, f.binary) || ArtifactWrong(env, p.rulesetDigest, f.ruleset) {
        return "mismatch", false;
      }
      attested := attested || Attested(p);
      pending := pending || Unchecked(p, f);
    }
    return if pending then "attested_unchecked" else if attested then "matched" else "not_attested", true;
  }

  // ---- Supplied sources --------------------------------------------------

  function TotalBytes(values: seq<Supplied>): nat {
    if values == [] then 0
    else
      var last := values[|values| - 1].bytes;
      TotalBytes(values[..|values| - 1]) + (if last.Decoded? then |last.bytes| else 0)
  }

  predicate SuppliedOk(v: Supplied) { v.sourceId != [] && v.bytes.Decoded? && Valid(v.bytes.bytes) }

  // The supplied sources by ID; None when an entry is malformed, an ID is
  // repeated or the cumulative limit is passed.
  function Sources(values: seq<Supplied>): Option<map<SourceId, Bytes>> {
    if values == [] then Some(map[])
    else
      var last := values[|values| - 1];
      match Sources(values[..|values| - 1])
      case None => None
      case Some(m) =>
        if last.sourceId in m || !SuppliedOk(last) || TotalBytes(values) > MAX_TOTAL_SOURCE_BYTES then None
        else Some(m[last.sourceId := last.bytes.bytes])
  }

  method CollectSources(values: seq<Supplied>) returns (r: Option<map<SourceId, Bytes>>)
    ensures r == Sources(values)
  {
    hide Valid;
    var result: map<SourceId, Bytes> := map[];
    var total := 0;
    assert values[..0] == [];
    for i := 0 to |values|
      invariant Sources(values[..i]) == Some(result)
      invariant total == TotalBytes(values[..i])
    {
      var v := values[i];
      assert values[..i + 1][..i] == values[..i];
      SourcesFail(values, i + 1);
      if v.sourceId == [] || v.sourceId in result { return None; }
      if !v.bytes.Decoded? || !Valid(v.bytes.bytes) { return None; }
      total := total + |v.bytes.bytes|;
      if total > MAX_TOTAL_SOURCE_BYTES { return None; }
      result := result[v.sourceId := v.bytes.bytes];
    }
    assert values[..|values|] == values;
    return Some(result);
  }

  lemma {:induction false} SourcesFail(values: seq<Supplied>, n: nat)
    requires n <= |values|
    ensures Sources(values[..n]).None? ==> Sources(values).None?
    decreases |values| - n
  {
    hide SuppliedOk;
    if n == |values| {
      assert values[..n] == values;
    } else {
      assert values[..n + 1][..n] == values[..n];
      SourcesFail(values, n + 1);
    }
  }

  // Collection succeeds exactly when every entry is in order, no ID is repeated
  // and the total is within the limit; every supplied ID is then collected.
  lemma {:induction false} SourcesExactly(values: seq<Supplied>)
    ensures Sources(values).Some? <==>
            && (forall i :: 0 <= i < |values| ==>
                  values[i].sourceId != [] && values[i].bytes.Decoded? && Valid(values[i].bytes.bytes))
            && (forall i, j :: 0 <= i < j < |values| ==> values[i].sourceId != values[j].sourceId)
            && TotalBytes(values) <= 16 * 1024 * 1024
    ensures Sources(values).Some? ==>
              forall id :: id in Sources(values).value <==> exists i :: 0 <= i < |values| && values[i].sourceId == id
  {
    hide Valid;
    if values != [] {
      var init, last := values[..|values| - 1], values[|values| - 1];
      SourcesExactly(init);
      assert forall i :: 0 <= i < |init| ==> init[i] == values[i];
      if Sources(values).Some? {
        forall id ensures id in Sources(values).value <==> exists i :: 0 <= i < |values| && values[i].sourceId == id {
          assert id in Sources(values).value <==> id in Sources(init).value || id == last.sourceId;
        }
      }
    }
  }

  // Each collected source is one of the supplied ones, decoded and valid UTF-8.
  lemma {:induction false} SourcesAreSupplied(values: seq<Supplied>, id: SourceId)
    requires Sources(values).Some? && id in Sources(values).value
    ensures exists i :: 0 <= i < |values| && values[i] == Supplied(id, Decoded(Sources(values).value[id]))
    ensures Valid(Sources(values).value[id])
  {
    hide Valid;
    var init, last := values[..|values| - 1], values[|values| - 1];
    if id == last.sourceId {
      assert values[|values| - 1] == Supplied(id, Decoded(Sources(values).value[id]));
    } else {
      SourcesAreSupplied(init, id);
      var i :| 0 <= i < |init| && init[i] == Supplied(id, Decoded(Sources(init).value[id]));
      assert values[i] == init[i];
    }
  }

  // ---- Views -------------------------------------------------------------

  function Cost(charges: seq<nat>): nat {
    if charges == [] then 0 else Cost(charges[..|charges| - 1]) + charges[|charges| - 1]
  }

  lemma {:induction false} CostGrows(charges: seq<nat>, n: nat)
    requires n <= |charges|
    ensures Cost(charges[..n]) <= Cost(charges)
    decreases |charges| - n
  {
    if n == |charges| {
      assert charges[..n] == charges;
    } else {
      assert charges[..n + 1][..n] == charges[..n];
      CostGrows(charges, n + 1);
    }
  }

  // ApplyWithinBudget: each charge is granted or the run ends.  It is over budget
  // exactly when the whole run costs more than the limit; otherwise the limit
  // changes nothing.
  method ApplyWithinBudget(env: Env, recipe: Recipe, input: Bytes, limit: int) returns (a: Applied)
    ensures var x, granted := env.run(recipe, input), if limit < 0 then 0 else limit;
            if Cost(x.charges) > granted then a.OverBudget? && a.charged <= granted
            else a == (if x.result.Some? then View(x.result.value, Cost(x.charges)) else Failed(Cost(x.charges)))
  {
    var x := env.run(recipe, input);
    var granted := if limit < 0 then 0 else limit;
    var remaining := granted;
    assert x.charges[..0] == [];
    for i := 0 to |x.charges|
      invariant 0 <= remaining && remaining == granted - Cost(x.charges[..i])
    {
      assert x.charges[..i + 1][..i] == x.charges[..i];
      CostGrows(x.charges, i + 1);
      if x.charges[i] > remaining { return OverBudget(granted - remaining); }
      remaining := remaining - x.charges[i];
    }
    assert x.charges[..|x.charges|] == x.charges;
    match x.result {
      case None => return Failed(granted - remaining);
      case Some(v) => return View(v, granted - remaining);
    }
  }

  // The view is what the recipe yields on the supplied source.
  predicate FreshView(env: Env, m: map<SourceId, Bytes>, s: Source, view: Bytes) {
    s.sourceId in m && env.run(s.recipe, m[s.sourceId]).result == Some(view)
  }

  function Intervals(ms: seq<Match>): seq<Interval> { seq(|ms|, i requires 0 <= i < |ms| => ms[i].at) }

  ghost predicate Located(view: Bytes, s: Source) {
    forall i :: 0 <= i < |s.matches| ==> Locates(view, s.matches[i].at)
  }

  function KeyOf(s: Source): Lines.Bytes { ViewCacheKey.CacheKey(s.sourceId, Encoding(s.recipe)) }

  predicate SameView(s: Source, t: Source) { s.sourceId == t.sourceId && s.recipe == t.recipe }

  ghost predicate Repeated(before: seq<Source>, s: Source) {
    exists k :: 0 <= k < |before| && SameView(before[k], s)
  }

  // The work of all distinct views among the supplied sources.
  ghost function Work(env: Env, m: map<SourceId, Bytes>, ss: seq<Source>): nat {
    if ss == [] then 0
    else
      var init, last := ss[..|ss| - 1], ss[|ss| - 1];
      Work(env, m, init) +
      (if last.sourceId in m && !Repeated(init, last) then Cost(env.run(last.recipe, m[last.sourceId]).charges) else 0)
  }

  lemma {:induction false} WorkGrows(env: Env, m: map<SourceId, Bytes>, ss: seq<Source>, n: nat)
    requires n <= |ss|
    ensures Work(env, m, ss[..n]) <= Work(env, m, ss)
    decreases |ss| - n
  {
    hide Repeated, Cost;
    if n == |ss| {
      assert ss[..n] == ss;
    } else {
      assert ss[..n + 1][..n] == ss[..n];
      WorkGrows(env, m, ss, n + 1);
    }
  }

  // The cache holds the views of exactly the supplied sources visited before.
  ghost predicate CacheOk(env: Env, m: map<SourceId, Bytes>, before: seq<Source>, cache: map<Lines.Bytes, Bytes>) {
    && (forall k :: k in cache ==> exists i :: 0 <= i < |before| && StoredFor(env, m, before[i], k, cache[k]))
    && (forall i :: 0 <= i < |before| && before[i].sourceId in m ==> KeyOf(before[i]) in cache)
  }

  ghost predicate StoredFor(env: Env, m: map<SourceId, Bytes>, s: Source, k: Lines.Bytes, view: Bytes) {
    ValidRecipe(s.recipe) && k == KeyOf(s) && FreshView(env, m, s, view)
  }

  // A lookup hits exactly when the same source and recipe came before, and then
  // yields what applying the recipe again would.
  lemma HitIsFresh(env: Env, m: map<SourceId, Bytes>, before: seq<Source>, cache: map<Lines.Bytes, Bytes>, s: Source)
    requires CacheOk(env, m, before, cache) && ValidRecipe(s.recipe) && s.sourceId in m
    ensures KeyOf(s) in cache <==> Repeated(before, s)
    ensures KeyOf(s) in cache ==> FreshView(env, m, s, cache[KeyOf(s)])
  {
    hide ValidRecipe, Encoding;
    if KeyOf(s) in cache {
      var i :| 0 <= i < |before| && StoredFor(env, m, before[i], KeyOf(s), cache[KeyOf(s)]);
      ViewCacheKey.CacheKeyIsInjective(before[i].sourceId, before[i].recipe, s.sourceId, s.recipe);
      assert SameView(before[i], s);
    }
  }

  lemma CacheGrows(env: Env, m: map<SourceId, Bytes>, before: seq<Source>, cache: map<Lines.Bytes, Bytes>, s: Source, view: Bytes)
    requires CacheOk(env, m, before, cache) && ValidRecipe(s.recipe) && FreshView(env, m, s, view)
    ensures CacheOk(env, m, before + [s], cache[KeyOf(s) := view])
  {
    hide ValidRecipe, Encoding, KeyOf, FreshView;
    var after, grown := before + [s], cache[KeyOf(s) := view];
    forall k | k in grown ensures exists i :: 0 <= i < |after| && StoredFor(env, m, after[i], k, grown[k]) {
      if k == KeyOf(s) {
        assert StoredFor(env, m, after[|before|], k, grown[k]);
      } else {
        var i :| 0 <= i < |before| && StoredFor(env, m, before[i], k, cache[k]);
        assert StoredFor(env, m, after[i], k, grown[k]);
      }
    }
  }

  lemma CacheStays(env: Env, m: map<SourceId, Bytes>, before: seq<Source>, cache: map<Lines.Bytes, Bytes>, s: Source)
    requires CacheOk(env, m, before, cache) && (s.sourceId in m ==> KeyOf(s) in cache)
    ensures CacheOk(env, m, before + [s], cache)
  {
    hide KeyOf, StoredFor;
    var after := before + [s];
    forall k | k in cache ensures exists i :: 0 <= i < |after| && StoredFor(env, m, after[i], k, cache[k]) {
      var i :| 0 <= i < |before| && StoredFor(env, m, before[i], k, cache[k]);
      assert StoredFor(env, m, after[i], k, cache[k]);
    }
  }

  // Where the loops stand after visiting before: the cache, and what is left of
  // the work allowance.
  ghost predicate Progress(env: Env, m: map<SourceId, Bytes>, before: seq<Source>, cache: map<Lines.Bytes, Bytes>, budget: int) {
    CacheOk(env, m, before, cache) && budget == MAX_RECIPE_WORK - Work(env, m, before) >= 0
  }

  datatype Reproduced = Ok | BadRecipe | ViewMismatch | LocationMismatch

  // Why source s, visited after before, ends the reproduction in r.
  ghost predicate Blame(env: Env, m: map<SourceId, Bytes>, before: seq<Source>, s: Source, r: Reproduced) {
    s.sourceId in m &&
    match r
    case Ok => false
    case BadRecipe => !ValidRecipe(s.recipe) || Work(env, m, before + [s]) > MAX_RECIPE_WORK
    case ViewMismatch => env.run(s.recipe, m[s.sourceId]).result.None?
    case LocationMismatch => exists view: Bytes :: FreshView(env, m, s, view) && !Located(view, s)
  }

  // One source: its view from the cache or from its recipe, and its coordinates.
  method ReproduceView(env: Env, m: map<SourceId, Bytes>, s: Source, ghost before: seq<Source>,
                       cache0: map<Lines.Bytes, Bytes>, budget0: int)
    returns (r: Reproduced, view: Bytes, cache: map<Lines.Bytes, Bytes>, budget: int, found: bool)
    requires Progress(env, m, before, cache0, budget0) && s.sourceId in m
    ensures !r.Ok? ==> Blame(env, m, before, s, r)
    ensures found <==> r.Ok? || r.LocationMismatch?
    ensures found ==> Yields(env, m, s)
    ensures r.Ok? ==> Progress(env, m, before + [s], cache, budget)
                      && ValidRecipe(s.recipe) && FreshView(env, m, s, view) && Located(view, s)
  {
    hide ValidRecipe, Encoding, CacheOk, Located, Cost, KeyOf, Repeated;
    view, cache, budget, found := [], cache0, budget0, false;
    WorkSnoc(env, m, before, s);
    var recipeBytes := CanonicalRecipeBytes(s.recipe);
    if recipeBytes.None? { return BadRecipe, view, cache, budget, found; }
    var key := ViewCacheKey.CacheKey(s.sourceId, recipeBytes.value);
    assert key == KeyOf(s) by { KeyIs(s); }
    HitIsFresh(env, m, before, cache, s);
    if key in cache {
      view := cache[key];
      CacheStays(env, m, before, cache, s);
    } else {
      var applied := ApplyWithinBudget(env, s.recipe, m[s.sourceId], budget);
      budget := budget - applied.charged;
      match applied {
        case OverBudget(_) => return BadRecipe, view, cache, budget, found;
        case Failed(_) => return ViewMismatch, view, cache, budget, found;
        case View(v, _) =>
          view, cache := v, cache[key := v];
          CacheGrows(env, m, before, cache0, s, v);
      }
    }
    found := true;
    var located := ValidateLocations(view, Intervals(s.matches));
    IntervalsOf(view, s);
    r := if located then Ok else LocationMismatch;
  }

  lemma KeyIs(s: Source)
    ensures KeyOf(s) == ViewCacheKey.CacheKey(s.sourceId, Encoding(s.recipe))
  {
  }

  lemma WorkSnoc(env: Env, m: map<SourceId, Bytes>, before: seq<Source>, s: Source)
    ensures Work(env, m, before + [s]) == Work(env, m, before) +
            (if s.sourceId in m && !Repeated(before, s) then Cost(env.run(s.recipe, m[s.sourceId]).charges) else 0)
  {
    assert (before + [s])[..|before|] == before;
  }

  // A source that was not supplied is passed over.
  lemma SkipKeepsProgress(env: Env, m: map<SourceId, Bytes>, before: seq<Source>, s: Source,
                          cache: map<Lines.Bytes, Bytes>, budget: int)
    requires Progress(env, m, before, cache, budget) && s.sourceId !in m
    ensures Progress(env, m, before + [s], cache, budget)
  {
    hide CacheOk, Cost, Repeated;
    WorkSnoc(env, m, before, s);
    CacheStays(env, m, before, cache, s);
  }

  // The source was supplied and its recipe yields a view of it.
  predicate Yields(env: Env, m: map<SourceId, Bytes>, s: Source) {
    s.sourceId in m && env.run(s.recipe, m[s.sourceId]).result.Some?
  }

  // What reproduction establishes about one source, if it was supplied.
  ghost predicate Shown(env: Env, m: map<SourceId, Bytes>, s: Source, view: Bytes) {
    s.sourceId in m ==> ValidRecipe(s.recipe) && FreshView(env, m, s, view) && Located(view, s)
  }

  // The views of one signed proof; an unavailable source has the empty view.
  method ReproduceViews(env: Env, m: map<SourceId, Bytes>, p: SignedProof, ghost before: seq<Source>,
                        cache0: map<Lines.Bytes, Bytes>, budget0: int)
    returns (r: Reproduced, views: seq<Bytes>, cache: map<Lines.Bytes, Bytes>, budget: int, any: bool)
    requires Progress(env, m, before, cache0, budget0)
    ensures !r.Ok? ==> exists j :: 0 <= j < |p.sources| && Blame(env, m, before + p.sources[..j], p.sources[j], r)
    ensures r.Ok? ==> Progress(env, m, before + p.sources, cache, budget) && |views| == |p.sources|
    ensures r.Ok? ==> forall j :: 0 <= j < |views| ==> Shown(env, m, p.sources[j], views[j])
    ensures any ==> exists j :: 0 <= j < |p.sources| && Yields(env, m, p.sources[j])
    ensures r.Ok? ==> (any <==> exists j :: 0 <= j < |p.sources| && p.sources[j].sourceId in m)
  {
    hide Progress, Blame, ValidRecipe, Located, FreshView;
    views, cache, budget, any := [], cache0, budget0, false;
    assert before + p.sources[..0] == before;
    for j := 0 to |p.sources|
      invariant |views| == j && Progress(env, m, before + p.sources[..j], cache, budget)
      invariant forall l :: 0 <= l < j ==> Shown(env, m, p.sources[l], views[l])
      invariant any ==> exists l :: 0 <= l < j && Yields(env, m, p.sources[l])
      invariant any <==> exists l :: 0 <= l < j && p.sources[l].sourceId in m
    {
      var s := p.sources[j];
      assert (before + p.sources[..j]) + [s] == before + p.sources[..j + 1];
      if s.sourceId !in m {
        SkipKeepsProgress(env, m, before + p.sources[..j], s, cache, budget);
        views := views + [[]];
        continue;
      }
      var view, found;
      r, view, cache, budget, found := ReproduceView(env, m, s, before + p.sources[..j], cache, budget);
      assert found ==> Yields(env, m, p.sources[j]);
      any := any || found;
      if !r.Ok? { return; }
      views := views + [view];
    }
    assert p.sources[..|p.sources|] == p.sources;
    return Ok, views, cache, budget, any;
  }

  lemma IntervalsOf(view: Bytes, s: Source)
    ensures Located(view, s) <==> forall i :: 0 <= i < |Intervals(s.matches)| ==> Locates(view, Intervals(s.matches)[i])
  {
    hide Locates;
    assert forall i :: 0 <= i < |s.matches| ==> Intervals(s.matches)[i] == s.matches[i].at;
  }

  // ---- Commitments -------------------------------------------------------

  // The view and every match of the source recompute to their commitments.
  predicate Committed(env: Env, key: Bytes, s: Source, view: Bytes) {
    && env.commitView(key, s, view) == Some(s.viewCommitment)
    && forall i :: 0 <= i < |s.matches| ==> env.commitMatch(key, s, s.matches[i]) == Some(s.matches[i].commitment)
  }

  // A commitment of the source that does not recompute, of the kind named.
  ghost predicate Uncommitted(env: Env, key: Bytes, s: Source, view: Bytes, kind: string) {
    if kind == "view_commitment" then env.commitView(key, s, view) != Some(s.viewCommitment)
    else kind == "match_commitment"
         && exists i :: 0 <= i < |s.matches| && env.commitMatch(key, s, s.matches[i]) != Some(s.matches[i].commitment)
  }

  method CheckCommitments(env: Env, key: Bytes, sources: map<SourceId, Bytes>, p: SignedProof, views: seq<Bytes>)
    returns (failure: Option<string>)
    requires |views| == |p.sources|
    ensures failure.None? <==> forall j :: 0 <= j < |views| && p.sources[j].sourceId in sources ==>
                                 Committed(env, key, p.sources[j], views[j])
    ensures failure.Some? ==> failure.value == "view_commitment" || failure.value == "match_commitment"
    ensures failure.Some? ==> exists j :: 0 <= j < |views| && p.sources[j].sourceId in sources
                                          && Uncommitted(env, key, p.sources[j], views[j], failure.value)
  {
    for j := 0 to |p.sources|
      invariant forall l :: 0 <= l < j && p.sources[l].sourceId in sources ==> Committed(env, key, p.sources[l], views[l])
    {
      var s := p.sources[j];
      if s.sourceId !in sources { continue; }
      if env.commitView(key, s, views[j]) != Some(s.viewCommitment) {
        assert Uncommitted(env, key, p.sources[j], views[j], "view_commitment");
        return Some("view_commitment");
      }
      for i := 0 to |s.matches|
        invariant forall l :: 0 <= l < i ==> env.commitMatch(key, s, s.matches[l]) == Some(s.matches[l].commitment)
      {
        if env.commitMatch(key, s, s.matches[i]) != Some(s.matches[i].commitment) {
          assert Uncommitted(env, key, p.sources[j], views[j], "match_commitment");
          return Some("match_commitment");
        }
      }
    }
    return None;
  }

  // ---- The whole verifier ------------------------------------------------

  ghost predicate Referenced(proofs: seq<SignedProof>) {
    exists i :: 0 <= i < |proofs| && proofs[i].sources != []
  }

  ghost predicate AllSupplied(proofs: seq<SignedProof>, m: map<SourceId, Bytes>) {
    forall i, j :: 0 <= i < |proofs| && 0 <= j < |proofs[i].sources| ==> proofs[i].sources[j].sourceId in m
  }

  method ScanSources(proofs: seq<SignedProof>, m: map<SourceId, Bytes>) returns (visited: bool, unavailable: bool)
    ensures visited <==> Referenced(proofs)
    ensures unavailable <==> !AllSupplied(proofs, m)
  {
    visited, unavailable := false, false;
    for i := 0 to |proofs|
      invariant visited <==> exists k :: 0 <= k < i && proofs[k].sources != []
      invariant !unavailable <==> forall k, j :: 0 <= k < i && 0 <= j < |proofs[k].sources| ==> proofs[k].sources[j].sourceId in m
    {
      var p := proofs[i];
      for j := 0 to |p.sources|
        invariant visited <==> (exists k :: 0 <= k < i && proofs[k].sources != []) || j > 0
        invariant !unavailable <==>
          (forall k, l :: 0 <= k < i && 0 <= l < |proofs[k].sources| ==> proofs[k].sources[l].sourceId in m)
          && forall l :: 0 <= l < j ==> p.sources[l].sourceId in m
      {
        visited := true;
        if p.sources[j].sourceId !in m { unavailable := true; }
      }
    }
  }

  // views[i][j] is the view of source j of proof i.
  ghost predicate Viewed(env: Env, m: map<SourceId, Bytes>, p: SignedProof, views: seq<Bytes>) {
    |views| == |p.sources| && forall j :: 0 <= j < |views| ==> Shown(env, m, p.sources[j], views[j])
  }

  ghost predicate AllViewed(env: Env, m: map<SourceId, Bytes>, proofs: seq<SignedProof>, views: seq<seq<Bytes>>) {
    |views| == |proofs| && forall i :: 0 <= i < |proofs| ==> Viewed(env, m, proofs[i], views[i])
  }

  function AllSources(proofs: seq<SignedProof>): seq<Source> {
    if proofs == [] then [] else AllSources(proofs[..|proofs| - 1]) + proofs[|proofs| - 1].sources
  }

  ghost predicate Showable(env: Env, m: map<SourceId, Bytes>, s: Source) { exists view: Bytes :: Shown(env, m, s, view) }

  // Every supplied source has a valid recipe that yields a view in which its
  // coordinates are exact, and the distinct views are within the work limit.
  ghost predicate Reproducible(env: Env, m: map<SourceId, Bytes>, proofs: seq<SignedProof>) {
    && (forall i, j :: 0 <= i < |proofs| && 0 <= j < |proofs[i].sources| ==> Showable(env, m, proofs[i].sources[j]))
    && Work(env, m, AllSources(proofs)) <= MAX_RECIPE_WORK
  }

  // Some source, visited in order, ends the reproduction in r.
  ghost predicate Blamed(env: Env, m: map<SourceId, Bytes>, proofs: seq<SignedProof>, r: Reproduced) {
    exists i, j :: 0 <= i < |proofs| && 0 <= j < |proofs[i].sources|
                   && Blame(env, m, Visited(proofs, i, j), proofs[i].sources[j], r)
  }

  function Visited(proofs: seq<SignedProof>, i: nat, j: nat): seq<Source>
    requires i < |proofs| && j <= |proofs[i].sources|
  {
    AllSources(proofs[..i]) + proofs[i].sources[..j]
  }

  lemma SourcesSnoc(proofs: seq<SignedProof>, i: nat)
    requires i < |proofs|
    ensures AllSources(proofs[..i + 1]) == AllSources(proofs[..i]) + proofs[i].sources
  {
    assert proofs[..i + 1][..i] == proofs[..i];
  }

  lemma {:induction false} VisitedIsPrefix(proofs: seq<SignedProof>, i: nat)
    requires i <= |proofs|
    ensures AllSources(proofs[..i]) <= AllSources(proofs)
    decreases |proofs| - i
  {
    hide AllSources;
    if i == |proofs| {
      assert proofs[..i] == proofs;
    } else {
      SourcesSnoc(proofs, i);
      VisitedIsPrefix(proofs, i + 1);
    }
  }

  // Blame is deserved: with it the sources are not reproducible.
  lemma BlameIsReason(env: Env, m: map<SourceId, Bytes>, proofs: seq<SignedProof>, r: Reproduced)
    requires Blamed(env, m, proofs, r)
    ensures !Reproducible(env, m, proofs)
  {
    hide Work, AllSources, ValidRecipe;
    var i, j :| 0 <= i < |proofs| && 0 <= j < |proofs[i].sources|
                && Blame(env, m, Visited(proofs, i, j), proofs[i].sources[j], r);
    var s := proofs[i].sources[j];
    if Reproducible(env, m, proofs) {
      assert Showable(env, m, s);
      var view: Bytes :| Shown(env, m, s, view);
      var upTo := Visited(proofs, i, j) + [s];
      assert upTo == AllSources(proofs[..i]) + proofs[i].sources[..j + 1];
      SourcesSnoc(proofs, i);
      VisitedIsPrefix(proofs, i + 1);
      assert AllSources(proofs)[..|upTo|] == upTo;
      WorkGrows(env, m, AllSources(proofs), |upTo|);
      assert false;
    }
  }

  ghost predicate SomeViewYielded(env: Env, m: map<SourceId, Bytes>, proofs: seq<SignedProof>) {
    exists i, j :: 0 <= i < |proofs| && 0 <= j < |proofs[i].sources| && Yields(env, m, proofs[i].sources[j])
  }

  method ReproduceAll(env: Env, m: map<SourceId, Bytes>, proofs: seq<SignedProof>)
    returns (r: Reproduced, views: seq<seq<Bytes>>, any: bool)
    ensures r.Ok? <==> Reproducible(env, m, proofs)
    ensures r.Ok? ==> AllViewed(env, m, proofs, views)
    ensures !r.Ok? ==> Blamed(env, m, proofs, r)
    ensures any ==> SomeViewYielded(env, m, proofs)
    ensures r.Ok? && Referenced(proofs) && AllSupplied(proofs, m) ==> any
  {
    hide Progress, Blame, Shown, Work, AllSources, Yields;
    views, any := [], false;
    var cache: map<Lines.Bytes, Bytes> := map[];
    var budget := MAX_RECIPE_WORK;
    assert proofs[..0] == [];
    NoProgress(env, m);
    for i := 0 to |proofs|
      invariant Progress(env, m, AllSources(proofs[..i]), cache, budget)
      invariant |views| == i && forall k :: 0 <= k < i ==> Viewed(env, m, proofs[k], views[k])
      invariant any ==> SomeViewYielded(env, m, proofs)
      invariant AllSupplied(proofs, m) && (exists k :: 0 <= k < i && proofs[k].sources != []) ==> any
    {
      var some, vs;
      SourcesSnoc(proofs, i);
      r, vs, cache, budget, some := ReproduceViews(env, m, proofs[i], AllSources(proofs[..i]), cache, budget);
      any := any || some;
      assert AllSupplied(proofs, m) && proofs[i].sources != [] ==> proofs[i].sources[0].sourceId in m;
      if !r.Ok? {
        ghost var j: nat :| 0 <= j < |proofs[i].sources| && Blame(env, m, AllSources(proofs[..i]) + proofs[i].sources[..j], proofs[i].sources[j], r);
        assert Blame(env, m, Visited(proofs, i, j), proofs[i].sources[j], r);
        BlameIsReason(env, m, proofs, r);
        return;
      }
      views := views + [vs];
    }
    assert proofs[..|proofs|] == proofs;
    WithinWork(env, m, AllSources(proofs), cache, budget);
    ViewedIsReproducible(env, m, proofs, views);
    return Ok, views, any;
  }

  lemma ViewedIsReproducible(env: Env, m: map<SourceId, Bytes>, proofs: seq<SignedProof>, views: seq<seq<Bytes>>)
    requires AllViewed(env, m, proofs, views) && Work(env, m, AllSources(proofs)) <= MAX_RECIPE_WORK
    ensures Reproducible(env, m, proofs)
  {
    hide Shown, Work, AllSources;
    forall i, j | 0 <= i < |proofs| && 0 <= j < |proofs[i].sources|
      ensures Showable(env, m, proofs[i].sources[j])
    {
      assert Viewed(env, m, proofs[i], views[i]);
      assert Shown(env, m, proofs[i].sources[j], views[i][j]);
    }
  }

  lemma NoProgress(env: Env, m: map<SourceId, Bytes>)
    ensures Progress(env, m, AllSources([]), map[], MAX_RECIPE_WORK)
  {
  }

  lemma WithinWork(env: Env, m: map<SourceId, Bytes>, ss: seq<Source>, cache: map<Lines.Bytes, Bytes>, budget: int)
    requires Progress(env, m, ss, cache, budget)
    ensures Work(env, m, ss) <= MAX_RECIPE_WORK
  {
  }

  ghost predicate AllCommitted(env: Env, key: Bytes, m: map<SourceId, Bytes>, proofs: seq<SignedProof>, views: seq<seq<Bytes>>)
    requires |views| == |proofs| && forall i :: 0 <= i < |proofs| ==> |views[i]| == |proofs[i].sources|
  {
    forall i, j :: 0 <= i < |proofs| && 0 <= j < |proofs[i].sources| && proofs[i].sources[j].sourceId in m ==>
      Committed(env, key, proofs[i].sources[j], views[i][j])
  }

  ghost predicate SomeUncommitted(env: Env, key: Bytes, m: map<SourceId, Bytes>, proofs: seq<SignedProof>,
                                  views: seq<seq<Bytes>>, kind: string)
    requires |views| == |proofs| && forall i :: 0 <= i < |proofs| ==> |views[i]| == |proofs[i].sources|
  {
    && (kind == "view_commitment" || kind == "match_commitment")
    && exists i, j :: 0 <= i < |proofs| && 0 <= j < |proofs[i].sources| && proofs[i].sources[j].sourceId in m
                      && Uncommitted(env, key, proofs[i].sources[j], views[i][j], kind)
  }

  // "opened": every referenced source supplied, its view the one its own recipe
  // yields, every coordinate exact, and every commitment recomputed.
  ghost predicate Opened(env: Env, f: Fixture, proofs: seq<SignedProof>, views: seq<seq<Bytes>>) {
    && Sources(f.supplied).Some? && f.commitmentKey.Key? && Referenced(proofs)
    && var m := Sources(f.supplied).value;
    && AllSupplied(proofs, m)
    && AllViewed(env, m, proofs, views)
    && AllCommitted(env, f.commitmentKey.key, m, proofs, views)
  }

  // ---- Why a fixture is rejected ------------------------------------------

  // A reason to reject found before any source is looked at.
  ghost predicate RejectedEarly(env: Env, f: Fixture, raws: seq<Bytes>, proofs: seq<SignedProof>, stage: string) {
    if stage == "proof_structure" then
      || f.format != FORMAT || |f.entries| == 0 || |f.entries| > MAX_ENTRIES || |f.supplied| > MAX_SOURCES
      || (exists i: nat :: FirstBad(env, f, i, Structural))
      || (exists i :: 0 <= i < |proofs| && !env.proofValid(proofs[i]))
      || References(proofs) > MAX_REFERENCES || Checks(proofs) > MAX_CHECKS || Sources(f.supplied).None?
    else if stage == "signature" then f.publicKey.None? || exists i: nat :: FirstBad(env, f, i, BadSignature)
    else if stage == "chain" then !ChainHolds(env, raws, proofs)
    else if stage == "critical_features" then exists i :: 0 <= i < |proofs| && proofs[i].criticalFeatures != [FEATURE]
    else
      && stage == "artifacts"
      && exists i :: 0 <= i < |proofs| && (ArtifactWrong(env, proofs[i].binaryDigest, f.binary)
                                           || ArtifactWrong(env, proofs[i].rulesetDigest, f.ruleset))
  }

  // The opposite: nothing speaks against the fixture before its sources.
  ghost predicate InOrder(env: Env, f: Fixture, proofs: seq<SignedProof>) {
    && f.format == FORMAT && 0 < |f.entries| <= MAX_ENTRIES && |f.supplied| <= MAX_SOURCES
    && (forall i :: 0 <= i < |proofs| ==> proofs[i].criticalFeatures == [FEATURE] && env.proofValid(proofs[i]))
    && References(proofs) <= MAX_REFERENCES && Checks(proofs) <= MAX_CHECKS
    && (forall i :: 0 <= i < |proofs| ==>
          !ArtifactWrong(env, proofs[i].binaryDigest, f.binary) && !ArtifactWrong(env, proofs[i].rulesetDigest, f.ruleset))
  }

  // A reason to reject found in the sources, their views or their commitments.
  ghost predicate RejectedLate(env: Env, f: Fixture, m: map<SourceId, Bytes>, proofs: seq<SignedProof>,
                               views: seq<seq<Bytes>>, stage: string)
  {
    if stage == "proof_structure" then f.commitmentKey.BadKey? || Blamed(env, m, proofs, BadRecipe)
    else if stage == "view_reproduction" then Blamed(env, m, proofs, ViewMismatch)
    else if stage == "location" then Blamed(env, m, proofs, LocationMismatch)
    else f.commitmentKey.Key? && AllViewed(env, m, proofs, views)
         && SomeUncommitted(env, f.commitmentKey.key, m, proofs, views, stage)
  }

  // A status is bad exactly when its stage is the one that failed.
  predicate StatusesFit(r: Report) {
    && (r.signature == "invalid" <==> r.failureStage == "signature")
    && (r.signature == "verified" || r.signature == "invalid" || r.signature == "not_checked")
    && (r.chain == "invalid" <==> r.failureStage == "chain")
    && (r.chain == "verified" || r.chain == "invalid" || r.chain == "not_checked")
    && (r.artifacts == "mismatch" <==> r.failureStage == "artifacts")
    && LateStatusesFit(r)
    && (r.failureStage in {"critical_features", "artifacts", "view_reproduction", "location", "view_commitment", "match_commitment"}
        ==> r.chain == "verified")
  }

  predicate LateStatusesFit(r: Report) {
    && (r.viewReproduction == "mismatch" <==> r.failureStage == "view_reproduction")
    && (r.viewReproduction == "mismatch" || r.viewReproduction == "reproduced" || r.viewReproduction == "not_checked")
    && (r.location == "mismatch" ==> r.failureStage == "location")
    && (r.location == "mismatch" || r.location == "exact_coordinates" || r.location == "not_checked")
    && (r.matchCommitment == "mismatch" <==> r.failureStage == "view_commitment" || r.failureStage == "match_commitment")
    && (r.matchCommitment == "mismatch" || r.matchCommitment == "opened" || r.matchCommitment == "not_checked")
  }

  // The report never claims more than was established, and never "verified".
  method VerifyFixture(env: Env, f: Fixture)
    returns (r: Report, ghost raws: seq<Bytes>, ghost proofs: seq<SignedProof>, ghost views: seq<seq<Bytes>>)
    ensures r.overall == "incomplete" || r.overall == "invalid"
    ensures r.overall == "invalid" <==> r.failureStage != ""
    ensures r.signature == "verified" ==> SignaturesHold(env, f, raws, proofs)
    ensures r.chain == "verified" ==> r.signature == "verified" && ChainHolds(env, raws, proofs)
    ensures StatusesFit(r)
    ensures r.overall == "incomplete" || r.artifacts != "attested_unchecked" ==> ArtifactsSay(env, proofs, f, r.artifacts)
    ensures r.viewReproduction == "reproduced" ==>
              Sources(f.supplied).Some? && SomeViewYielded(env, Sources(f.supplied).value, proofs)
    ensures r.overall == "incomplete" ==>
              (r.viewReproduction == r.location == "not_checked")
              || (r.viewReproduction == "reproduced" && r.location == "exact_coordinates")
    ensures r.location == "exact_coordinates" ==>
              r.chain == "verified" && Sources(f.supplied).Some? && Referenced(proofs)
              && AllSupplied(proofs, Sources(f.supplied).value)
              && AllViewed(env, Sources(f.supplied).value, proofs, views)
    ensures r.matchCommitment == "opened" ==> r.location == "exact_coordinates" && r.overall == "incomplete"
                                              && Opened(env, f, proofs, views)
    // A fixture that is not rejected and supplies every referenced source is
    // reported as far as its inputs go.
    ensures r.overall == "incomplete" ==>
              && r.chain == "verified" && Sources(f.supplied).Some? && InOrder(env, f, proofs)
              && (Sources(f.supplied).value != map[] ==> SourcesInOrder(env, f, Sources(f.supplied).value, proofs, views))
    ensures r.overall == "incomplete" && Sources(f.supplied).value != map[] && Referenced(proofs)
            && AllSupplied(proofs, Sources(f.supplied).value) ==>
              r.location == "exact_coordinates" && (f.commitmentKey.Key? ==> r.matchCommitment == "opened")
    // No fixture is rejected without a reason of the kind reported.
    ensures r.overall == "invalid" ==>
              || RejectedEarly(env, f, raws, proofs, r.failureStage)
              || (Sources(f.supplied).Some? && RejectedLate(env, f, Sources(f.supplied).value, proofs, views, r.failureStage))
    ensures r.failureStage == "chain" ==> SignaturesHold(env, f, raws, proofs) && !ChainHolds(env, raws, proofs)
  {
    hide ArtifactsSay, SignaturesHold, ChainHolds, SomeViewYielded, RejectedLate, SourcesInOrder, ArtifactWrong, FirstBad, References, Checks, EntryStatus, Valid, Sources, Referenced, AllSupplied, AllViewed, ChainOk, AllSigned;
    r, raws, proofs, views := INITIAL, [], [], [];
    if f.format != FORMAT || |f.entries| == 0 || |f.entries| > MAX_ENTRIES || |f.supplied| > MAX_SOURCES {
      r := Reject(r, "proof_structure");
      return;
    }
    if f.publicKey.None? {
      r := Reject(r.(signature := "invalid"), "signature");
      return;
    }
    var failure, realRaws, realProofs := CheckSignatures(env, f);
    if failure.Some? {
      r := if failure.value.Structural? then Reject(r, "proof_structure") else Reject(r.(signature := "invalid"), "signature");
      return;
    }
    raws, proofs := realRaws, realProofs;
    SignedMeans(env, f, raws, proofs);
    ChainMeans(env, raws, proofs);
    assert |realRaws| == |realProofs| by { SignedLengths(env, f, realRaws, realProofs); }
    r := r.(signature := "verified");
    var chained := CheckChain(env, realRaws, realProofs);
    if !chained {
      r := Reject(r.(chain := "invalid"), "chain");
      return;
    }
    r := r.(chain := "verified");
    for i := 0 to |realProofs|
      invariant r == INITIAL.(signature := "verified", chain := "verified")
      invariant forall k :: 0 <= k < i ==> realProofs[k].criticalFeatures == [FEATURE] && env.proofValid(realProofs[k])
    {
      if realProofs[i].criticalFeatures != [FEATURE] {
        r := Reject(r, "critical_features");
        return;
      }
      if !env.proofValid(realProofs[i]) {
        r := Reject(r, "proof_structure");
        return;
      }
    }
    var within := WorkWithinLimits(realProofs);
    if !within {
      r := Reject(r, "proof_structure");
      return;
    }
    var status, matched := VerifyArtifacts(env, realProofs, f);
    r := r.(artifacts := status);
    if !matched {
      r := Reject(r, "artifacts");
      return;
    }
    var collected := CollectSources(f.supplied);
    if collected.None? {
      r := Reject(r, "proof_structure");
      return;
    }
    if |collected.value| == 0 { return; }
    r, views := OpenViews(env, f, realProofs, collected.value, r);
  }

  lemma SignedLengths(env: Env, f: Fixture, raws: seq<Bytes>, proofs: seq<SignedProof>)
    requires AllSigned(env, f, raws, proofs)
    ensures |raws| == |proofs|
  {
  }

  // Nothing speaks against the sources, their views and their commitments.
  ghost predicate SourcesInOrder(env: Env, f: Fixture, m: map<SourceId, Bytes>, proofs: seq<SignedProof>, views: seq<seq<Bytes>>) {
    && Reproducible(env, m, proofs) && AllViewed(env, m, proofs, views) && !f.commitmentKey.BadKey?
    && (f.commitmentKey.Key? ==> AllCommitted(env, f.commitmentKey.key, m, proofs, views))
  }

  // The stages that need sources: views, coordinates, commitments.
  method OpenViews(env: Env, f: Fixture, proofs: seq<SignedProof>, m: map<SourceId, Bytes>, r0: Report)
    returns (r: Report, ghost views: seq<seq<Bytes>>)
    requires Sources(f.supplied) == Some(m)
    requires r0.viewReproduction == r0.location == r0.matchCommitment == "not_checked"
    requires r0.overall == "incomplete" && r0.failureStage == ""
    ensures r.signature == r0.signature && r.chain == r0.chain && r.artifacts == r0.artifacts
    ensures r.overall == "incomplete" || r.overall == "invalid"
    ensures r.overall == "invalid" <==> r.failureStage != ""
    ensures r.failureStage !in {"signature", "chain", "critical_features", "artifacts"}
    ensures LateStatusesFit(r)
    ensures r.viewReproduction == "reproduced" ==> SomeViewYielded(env, m, proofs)
    ensures r.overall == "incomplete" ==>
              (r.viewReproduction == r.location == "not_checked")
              || (r.viewReproduction == "reproduced" && r.location == "exact_coordinates")
    ensures r.overall == "invalid" ==> RejectedLate(env, f, m, proofs, views, r.failureStage)
    ensures r.overall == "incomplete" ==> SourcesInOrder(env, f, m, proofs, views)
    ensures r.location == "exact_coordinates" ==>
              Referenced(proofs) && AllSupplied(proofs, m) && AllViewed(env, m, proofs, views)
    ensures r.matchCommitment == "opened" ==> r.location == "exact_coordinates" && r.overall == "incomplete"
                                              && Opened(env, f, proofs, views)
    ensures r.overall == "incomplete" && Referenced(proofs) && AllSupplied(proofs, m) ==>
              r.location == "exact_coordinates" && (f.commitmentKey.Key? ==> r.matchCommitment == "opened")
  {
    hide SomeViewYielded, Sources, Referenced, AllSupplied, Blamed, Reproducible, SourcesInOrder, AllCommitted, SomeUncommitted, AllViewed, Opened;
    r := r0;
    var visited, unavailable := ScanSources(proofs, m);
    var result, realViews, any := ReproduceAll(env, m, proofs);
    views := realViews;
    if any { r := r.(viewReproduction := "reproduced"); }
    match result {
      case BadRecipe =>
        r := Reject(r, "proof_structure");
      case ViewMismatch =>
        r := Reject(r.(viewReproduction := "mismatch"), "view_reproduction");
      case LocationMismatch =>
        r := Reject(if unavailable then r.(viewReproduction := "not_checked") else r.(location := "mismatch"), "location");
      case Ok =>
        if visited && !unavailable {
          r := r.(viewReproduction := "reproduced", location := "exact_coordinates");
        } else {
          r := r.(viewReproduction := "not_checked");
        }
        r := OpenCommitments(env, f, proofs, m, r, realViews, visited, unavailable);
    }
  }

  method OpenCommitments(env: Env, f: Fixture, proofs: seq<SignedProof>, m: map<SourceId, Bytes>, r0: Report,
                         views: seq<seq<Bytes>>, visited: bool, unavailable: bool)
    returns (r: Report)
    requires Sources(f.supplied) == Some(m) && Reproducible(env, m, proofs) && AllViewed(env, m, proofs, views)
    requires visited <==> Referenced(proofs)
    requires unavailable <==> !AllSupplied(proofs, m)
    requires r0.matchCommitment == "not_checked" && r0.overall == "incomplete" && r0.failureStage == ""
    ensures r.overall == "incomplete" ==> r == r0.(matchCommitment := r.matchCommitment) && SourcesInOrder(env, f, m, proofs, views)
    ensures r.overall == "invalid" ==> RejectedLate(env, f, m, proofs, views, r.failureStage)
    ensures r == r0.(matchCommitment := r.matchCommitment, overall := r.overall, failureStage := r.failureStage)
    ensures r.overall == "incomplete"
            || (r.overall == "invalid" && r.failureStage in {"proof_structure", "view_commitment", "match_commitment"})
    ensures r.matchCommitment == "mismatch" <==> r.failureStage == "view_commitment" || r.failureStage == "match_commitment"
    ensures r.matchCommitment == "mismatch" || r.matchCommitment == "opened" || r.matchCommitment == "not_checked"
    ensures r.matchCommitment == "opened" <==>
              r.overall == "incomplete" && visited && !unavailable && f.commitmentKey.Key?
    ensures r.matchCommitment == "opened" ==> Opened(env, f, proofs, views)
  {
    hide Sources, Referenced, AllSupplied, Blamed, Reproducible;
    r := r0;
    match f.commitmentKey {
      case NoKey => return;
      case BadKey =>
        r := Reject(r, "proof_structure");
      case Key(key) =>
        var failure := CommitAll(env, key, m, proofs, views);
        if failure.Some? {
          r := Reject(r.(matchCommitment := "mismatch"), failure.value);
          return;
        }
        if unavailable || !visited { return; }
        r := r.(matchCommitment := "opened");
    }
  }

  method CommitAll(env: Env, key: Bytes, m: map<SourceId, Bytes>, proofs: seq<SignedProof>, views: seq<seq<Bytes>>)
    returns (failure: Option<string>)
    requires AllViewed(env, m, proofs, views)
    ensures failure.None? <==> AllCommitted(env, key, m, proofs, views)
    ensures failure.Some? ==> SomeUncommitted(env, key, m, proofs, views, failure.value)
  {
    hide Committed, Shown, Uncommitted;
    for i := 0 to |proofs|
      invariant forall k, j :: 0 <= k < i && 0 <= j < |proofs[k].sources| && proofs[k].sources[j].sourceId in m ==>
        Committed(env, key, proofs[k].sources[j], views[k][j])
    {
      assert Viewed(env, m, proofs[i], views[i]);
      failure := CheckCommitments(env, key, m, proofs[i], views[i]);
      if failure.Some? { return; }
    }
    return None;
  }
}
