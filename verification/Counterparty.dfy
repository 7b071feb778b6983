// The counterparty verifier: a sequence of checks that mutate nothing, then
// one commit to the replay store.
module Counterparty {
  import opened Optional
  import opened ReplaySet
  import opened ReplayLog
  import opened MemReplayStore
  import opened FileReplayStore
  import SharedStore

  type Key = string

  const KEY_SIZE := 32
  const EGRESS := "egress"
  const INGRESS := "ingress"
  const RECORD_TYPE := "counterparty_receipt_v1"
  const CAPTURE_TYPE := "payload_capture_v1"
  const SIGNATURE_ALG := "ed25519"
  const BINDING_VERSION := 1

  // The signed part of a receipt; "rest" stands for the fields not used here.
  datatype ActionRecord = ActionRecord(actionId: string, actor: string, timestamp: int, rest: string)

  datatype Receipt = Receipt(action: ActionRecord, signerKey: string, envelope: string)

  datatype Signature = Signature(alg: string, keyId: string, sig: string)

  datatype Binding = Binding(
    payloadHash: string, sender: string, receiver: string, nonce: string,
    senderReceiptId: string, senderReceiptHash: string,
    receiverReceiptId: string, receiverReceiptHash: string,
    timestamp: int, version: int)

  datatype Record = Record(recordType: string, binding: Binding, signature: Signature)

  datatype PayloadCapture = PayloadCapture(
    recordType: string, actionId: string, actionHash: string, payloadHash: string,
    direction: string, party: string, counterparty: string, signature: Signature)

  datatype BoundReceipt = BoundReceipt(receipt: Receipt, capture: PayloadCapture)

  datatype Request = Request(
    fleetLicensed: bool,
    sender: Option<BoundReceipt>, receiver: Option<BoundReceipt>, record: Option<Record>,
    senderReceiptKey: Key, receiverReceiptKey: Key, sideRecordKey: Key, sideRecordKeyId: string,
    now: int, maxAge: int, maxFutureSkew: int)

  // Hashing, canonical encoding and signature checking, uninterpreted.  None is
  // an encoding error; hashes are hex without the label.
  datatype Crypto = Crypto(
    actionHash: ActionRecord -> Option<string>,
    receiptHash: Receipt -> Option<string>,
    recordHash: (string, Binding) -> Option<string>,
    captureHash: PayloadCapture -> Option<string>,
    receiptVerifies: (Receipt, string) -> bool,
    decodeSignature: string -> Option<string>,
    verifies: (Key, string, string) -> bool,
    keyHex: Key -> string)

  datatype FailureCode =
    | License | MissingInput | MalformedBinding | InvalidReceipt | CaptureInvalid | PayloadHashMismatch
    | ReceiptIdMismatch | ReceiptHashMismatch | IdentityMismatch | Stale | Future | Replayed | ReplayStoreError
    | SignatureInvalid | Trust | SelfCounterparty

  datatype Checked<T> = Ok(value: T) | Err(code: FailureCode)

  // ---- The checks --------------------------------------------------------

  predicate ValidBinding(b: Binding) {
    && b.version == BINDING_VERSION
    && ValidHash(b.payloadHash) && ValidToken(b.sender) && ValidToken(b.receiver) && ValidToken(b.nonce)
    && ValidToken(b.senderReceiptId) && ValidHash(b.senderReceiptHash)
    && ValidToken(b.receiverReceiptId) && ValidHash(b.receiverReceiptHash)
    && b.timestamp != ZERO_TIME
  }

  predicate ValidCapture(c: PayloadCapture) {
    && ValidToken(c.actionId) && ValidHash(c.actionHash) && ValidToken(c.party) && ValidToken(c.counterparty)
    && ValidHash(c.payloadHash) && (c.direction == EGRESS || c.direction == INGRESS)
  }

  // The demands on a binding and a capture, field by field.
  lemma ValidFieldsExactly(b: Binding, c: PayloadCapture)
    ensures ValidBinding(b) <==>
            && b.version == 1 && b.timestamp != 0
            && (forall s :: s in [b.sender, b.receiver, b.nonce, b.senderReceiptId, b.receiverReceiptId] ==> CleanToken(s))
            && (forall h :: h in [b.payloadHash, b.senderReceiptHash, b.receiverReceiptHash] ==> CleanHash(h))
    ensures ValidCapture(c) <==>
            && (c.direction == "egress" || c.direction == "ingress")
            && (forall s :: s in [c.actionId, c.party, c.counterparty] ==> CleanToken(s))
            && (forall h :: h in [c.actionHash, c.payloadHash] ==> CleanHash(h))
  {
    hide ValidToken, ValidHash, CleanToken, CleanHash;
    forall s ensures ValidToken(s) <==> CleanToken(s) { TokenIsClean(s); }
    forall h ensures ValidHash(h) <==> CleanHash(h) { HashIsClean(h); }
  }

  function SignedActionHash(cr: Crypto, r: Receipt): Option<string> {
    match cr.actionHash(r.action)
    case None => None
    case Some(h) => Some(HASH_PREFIX + h)
  }

  function VerifyPayloadCapture(cr: Crypto, c: PayloadCapture, key: Key, direction: string,
                                action: ActionRecord, actionHash: string, counterparty: string): Checked<string>
  {
    if c.recordType != CAPTURE_TYPE || !ValidCapture(c) || c.direction != direction then Err(CaptureInvalid)
    else if c.actionId != action.actionId || c.actionHash != actionHash then Err(CaptureInvalid)
    else if c.party != action.actor || c.counterparty != counterparty then Err(CaptureInvalid)
    else if c.signature.alg != SIGNATURE_ALG || |key| != KEY_SIZE then Err(CaptureInvalid)
    else
      match cr.decodeSignature(c.signature.sig)
      case None => Err(CaptureInvalid)
      case Some(sig) =>
        match cr.captureHash(c)
        case None => Err(InvalidReceipt)
        case Some(sum) => if cr.verifies(key, sum, sig) then Ok(c.payloadHash) else Err(CaptureInvalid)
  }

  function VerifyBoundReceipt(cr: Crypto, br: BoundReceipt, key: Key, direction: string, counterparty: string): Checked<string> {
    if |key| != KEY_SIZE || br.receipt.signerKey != cr.keyHex(key) then Err(Trust)
    else if !cr.receiptVerifies(br.receipt, cr.keyHex(key)) then Err(InvalidReceipt)
    else
      match SignedActionHash(cr, br.receipt)
      case None => Err(InvalidReceipt)
      case Some(hash) => VerifyPayloadCapture(cr, br.capture, key, direction, br.receipt.action, hash, counterparty)
  }

  function VerifyRecordSignature(cr: Crypto, r: Record, expectedKeyId: string, key: Key): Option<FailureCode> {
    if r.recordType != RECORD_TYPE || !ValidBinding(r.binding) then Some(SignatureInvalid)
    else if r.signature.alg != SIGNATURE_ALG || r.signature.keyId == "" then Some(SignatureInvalid)
    else if expectedKeyId == "" || r.signature.keyId != expectedKeyId || |key| != KEY_SIZE then Some(Trust)
    else
      match cr.decodeSignature(r.signature.sig)
      case None => Some(SignatureInvalid)
      case Some(sig) =>
        match cr.recordHash(r.recordType, r.binding)
        case None => Some(SignatureInvalid)
        case Some(sum) => if cr.verifies(key, sum, sig) then None else Some(SignatureInvalid)
  }

  function VerifyFresh(ts: int, now: int, maxAge: int, maxFutureSkew: int): Option<FailureCode> {
    if ts < now - maxAge then Some(Stale)
    else if ts > now + maxFutureSkew then Some(Future)
    else None
  }

  function EarlierTime(a: int, b: int): int { if a < b then a else b }

  function NonceOf(r: Record): NonceKey {
    NonceKey(r.signature.keyId, r.binding.sender, r.binding.receiver, r.binding.nonce)
  }

  function NewReplayEntry(cr: Crypto, r: Record, sender: Receipt, receiver: Receipt): Option<Entry> {
    match (cr.recordHash(r.recordType, r.binding), SignedActionHash(cr, sender), SignedActionHash(cr, receiver))
    case (Some(sum), Some(sh), Some(rh)) =>
      Some(Entry(NonceOf(r),
                 TransferKey(r.binding.sender, r.binding.receiver, r.binding.payloadHash,
                             r.binding.senderReceiptId, r.binding.receiverReceiptId, sh, rh),
                 HASH_PREFIX + sum, r.binding.timestamp,
                 EarlierTime(sender.action.timestamp, receiver.action.timestamp), false, false))
    case _ => None
  }

  predicate HashMatches(cr: Crypto, r: Receipt, want: string) {
    cr.receiptHash(r).Some? && HASH_PREFIX + cr.receiptHash(r).value == want
  }

  // The three freshness checks, in order.
  function FreshnessFailure(r: Record, s: Receipt, v: Receipt, req: Request): Option<FailureCode> {
    var a := VerifyFresh(r.binding.timestamp, req.now, req.maxAge, req.maxFutureSkew);
    var b := VerifyFresh(s.action.timestamp, req.now, req.maxAge, req.maxFutureSkew);
    if a.Some? then a else if b.Some? then b
    else VerifyFresh(v.action.timestamp, req.now, req.maxAge, req.maxFutureSkew)
  }

  // Every check after the inputs are known to be present and the binding sound.
  function CrossChecks(cr: Crypto, req: Request, r: Record, s: BoundReceipt, v: BoundReceipt): Option<FailureCode> {
    var b := r.binding;
    var sent := VerifyBoundReceipt(cr, s, req.senderReceiptKey, EGRESS, b.receiver);
    if sent.Err? then Some(sent.code) else
    var received := VerifyBoundReceipt(cr, v, req.receiverReceiptKey, INGRESS, b.sender);
    if received.Err? then Some(received.code) else
    var signature := VerifyRecordSignature(cr, r, req.sideRecordKeyId, req.sideRecordKey);
    if signature.Some? then signature
    else if |req.sideRecordKey| != KEY_SIZE
            || req.sideRecordKey == req.senderReceiptKey || req.sideRecordKey == req.receiverReceiptKey then Some(Trust)
    else if sent.value != b.payloadHash || received.value != b.payloadHash then Some(PayloadHashMismatch)
    else if s.receipt.action.actionId != b.senderReceiptId || v.receipt.action.actionId != b.receiverReceiptId
      then Some(ReceiptIdMismatch)
    else if !HashMatches(cr, s.receipt, b.senderReceiptHash) || !HashMatches(cr, v.receipt, b.receiverReceiptHash)
      then Some(ReceiptHashMismatch)
    else if s.receipt.signerKey == v.receipt.signerKey then Some(SelfCounterparty)
    else if s.receipt.action.actor != b.sender || v.receipt.action.actor != b.receiver then Some(IdentityMismatch)
    else FreshnessFailure(r, s.receipt, v.receipt, req)
  }

  // Everything VerifyCounterparty decides before it touches the replay store.
  function Appraise(cr: Crypto, req: Request): Checked<Entry> {
    if !req.fleetLicensed then Err(License)
    else if req.sender.None? || req.receiver.None? || req.record.None? then Err(MissingInput)
    else if req.now == ZERO_TIME || req.maxAge <= 0 || req.maxFutureSkew <= 0 then Err(MissingInput)
    else
      var r, s, v := req.record.value, req.sender.value, req.receiver.value;
      if !ValidBinding(r.binding) then Err(MalformedBinding)
      else if r.binding.sender == r.binding.receiver then Err(SelfCounterparty)
      else
        match CrossChecks(cr, req, r, s, v)
        case Some(code) => Err(code)
        case None =>
          match NewReplayEntry(cr, r, s.receipt, v.receipt)
          case None => Err(ReplayStoreError)
          case Some(e) => Ok(e)
  }

  // ---- Which failure is reported -----------------------------------------
  // A reference for the check sequence: what can be wrong with a request, in the
  // order in which it is looked for.

  datatype Fault = Fault(code: FailureCode, present: bool)

  function FirstFault(fs: seq<Fault>): Option<FailureCode> {
    if fs == [] then None else if fs[0].present then Some(fs[0].code) else FirstFault(fs[1..])
  }

  lemma {:induction false} FirstFaultConcat(a: seq<Fault>, b: seq<Fault>)
    ensures FirstFault(a + b) == if FirstFault(a).Some? then FirstFault(a) else FirstFault(b)
  {
    if a == [] {
      assert a + b == b;
    } else {
      assert (a + b)[1..] == a[1..] + b;
      FirstFaultConcat(a[1..], b);
    }
  }

  // A receipt and its payload capture.
  function ReceiptFaults(cr: Crypto, br: BoundReceipt, key: Key, direction: string, counterparty: string): seq<Fault> {
    var c, action := br.capture, br.receipt.action;
    var hash, sum, sig := cr.actionHash(action), cr.captureHash(c), cr.decodeSignature(c.signature.sig);
    [Fault(Trust, |key| != 32 || br.receipt.signerKey != cr.keyHex(key)),
     Fault(InvalidReceipt, !cr.receiptVerifies(br.receipt, cr.keyHex(key)) || hash.None?),
     Fault(CaptureInvalid,
           || c.recordType != "payload_capture_v1" || !ValidCapture(c) || c.direction != direction
           || c.actionId != action.actionId || (hash.Some? && c.actionHash != "sha256:" + hash.value)
           || c.party != action.actor || c.counterparty != counterparty || c.signature.alg != "ed25519" || sig.None?),
     Fault(InvalidReceipt, sum.None?),
     Fault(CaptureInvalid, sum.Some? && sig.Some? && !cr.verifies(key, sum.value, sig.value))]
  }

  // The side record's signature and its key.
  function SignatureFaults(cr: Crypto, r: Record, req: Request): seq<Fault> {
    var sum, sig := cr.recordHash(r.recordType, r.binding), cr.decodeSignature(r.signature.sig);
    [Fault(SignatureInvalid, r.recordType != "counterparty_receipt_v1" || r.signature.alg != "ed25519" || r.signature.keyId == ""),
     Fault(Trust, req.sideRecordKeyId == "" || r.signature.keyId != req.sideRecordKeyId || |req.sideRecordKey| != 32),
     Fault(SignatureInvalid, sig.None? || sum.None? || !cr.verifies(req.sideRecordKey, sum.value, sig.value)),
     Fault(Trust, req.sideRecordKey == req.senderReceiptKey || req.sideRecordKey == req.receiverReceiptKey)]
  }

  // What the record says against what the receipts say.
  function BindingFaults(cr: Crypto, b: Binding, s: BoundReceipt, v: BoundReceipt): seq<Fault> {
    var sh, vh := cr.receiptHash(s.receipt), cr.receiptHash(v.receipt);
    [Fault(PayloadHashMismatch, s.capture.payloadHash != b.payloadHash || v.capture.payloadHash != b.payloadHash),
     Fault(ReceiptIdMismatch,
           s.receipt.action.actionId != b.senderReceiptId || v.receipt.action.actionId != b.receiverReceiptId),
     Fault(ReceiptHashMismatch,
           || sh.None? || "sha256:" + sh.value != b.senderReceiptHash
           || vh.None? || "sha256:" + vh.value != b.receiverReceiptHash),
     Fault(SelfCounterparty, s.receipt.signerKey == v.receipt.signerKey),
     Fault(IdentityMismatch, s.receipt.action.actor != b.sender || v.receipt.action.actor != b.receiver)]
  }

  function TimeFaults(req: Request, b: Binding, s: BoundReceipt, v: BoundReceipt): seq<Fault> {
    var oldest, newest := req.now - req.maxAge, req.now + req.maxFutureSkew;
    [Fault(Stale, b.timestamp < oldest), Fault(Future, b.timestamp > newest),
     Fault(Stale, s.receipt.action.timestamp < oldest), Fault(Future, s.receipt.action.timestamp > newest),
     Fault(Stale, v.receipt.action.timestamp < oldest), Fault(Future, v.receipt.action.timestamp > newest)]
  }

  function Faults(cr: Crypto, req: Request, r: Record, s: BoundReceipt, v: BoundReceipt): seq<Fault> {
    [Fault(MalformedBinding, !ValidBinding(r.binding)), Fault(SelfCounterparty, r.binding.sender == r.binding.receiver)]
    + (ReceiptFaults(cr, s, req.senderReceiptKey, EGRESS, r.binding.receiver)
       + (ReceiptFaults(cr, v, req.receiverReceiptKey, INGRESS, r.binding.sender)
          + (SignatureFaults(cr, r, req) + (BindingFaults(cr, r.binding, s, v) + TimeFaults(req, r.binding, s, v)))))
  }

  lemma UnfoldFaults(fs: seq<Fault>)
    ensures FirstFault(fs) == if fs == [] then None else if fs[0].present then Some(fs[0].code) else FirstFault(fs[1..])
  {
  }

  lemma FiveFaults(a: Fault, b: Fault, c: Fault, d: Fault, e: Fault)
    ensures FirstFault([a, b, c, d, e]) ==
            if a.present then Some(a.code) else if b.present then Some(b.code) else if c.present then Some(c.code)
            else if d.present then Some(d.code) else if e.present then Some(e.code) else None
  {
    hide FirstFault;
    UnfoldFaults([a, b, c, d, e]);
    UnfoldFaults([b, c, d, e]);
    UnfoldFaults([c, d, e]);
    UnfoldFaults([d, e]);
    UnfoldFaults([e]);
    UnfoldFaults([]);
    assert [a, b, c, d, e][1..] == [b, c, d, e] && [b, c, d, e][1..] == [c, d, e];
    assert [c, d, e][1..] == [d, e] && [d, e][1..] == [e] && [e][1..] == [];
  }

  lemma ReceiptFaultIsReported(cr: Crypto, br: BoundReceipt, key: Key, direction: string, counterparty: string)
    ensures var v := VerifyBoundReceipt(cr, br, key, direction, counterparty);
            FirstFault(ReceiptFaults(cr, br, key, direction, counterparty)) == if v.Err? then Some(v.code) else None
    ensures VerifyBoundReceipt(cr, br, key, direction, counterparty).Ok? ==>
              VerifyBoundReceipt(cr, br, key, direction, counterparty).value == br.capture.payloadHash
  {
    hide FirstFault, ValidCapture;
    var f := ReceiptFaults(cr, br, key, direction, counterparty);
    FiveFaults(f[0], f[1], f[2], f[3], f[4]);
    assert f == [f[0], f[1], f[2], f[3], f[4]];
  }

  lemma RestOfFaults(cr: Crypto, req: Request, r: Record, s: BoundReceipt, v: BoundReceipt)
    requires ValidBinding(r.binding)
    ensures FirstFault(SignatureFaults(cr, r, req)) ==
            var f := VerifyRecordSignature(cr, r, req.sideRecordKeyId, req.sideRecordKey);
            if f.Some? then f
            else if |req.sideRecordKey| != KEY_SIZE
                    || req.sideRecordKey == req.senderReceiptKey || req.sideRecordKey == req.receiverReceiptKey then Some(Trust)
            else None
    ensures FirstFault(BindingFaults(cr, r.binding, s, v)) ==
            var b := r.binding;
            if s.capture.payloadHash != b.payloadHash || v.capture.payloadHash != b.payloadHash then Some(PayloadHashMismatch)
            else if s.receipt.action.actionId != b.senderReceiptId || v.receipt.action.actionId != b.receiverReceiptId
              then Some(ReceiptIdMismatch)
            else if !HashMatches(cr, s.receipt, b.senderReceiptHash) || !HashMatches(cr, v.receipt, b.receiverReceiptHash)
              then Some(ReceiptHashMismatch)
            else if s.receipt.signerKey == v.receipt.signerKey then Some(SelfCounterparty)
            else if s.receipt.action.actor != b.sender || v.receipt.action.actor != b.receiver then Some(IdentityMismatch)
            else None
    ensures FirstFault(TimeFaults(req, r.binding, s, v)) == FreshnessFailure(r, s.receipt, v.receipt, req)
  {
    hide FirstFault, ValidBinding;
    var f := SignatureFaults(cr, r, req);
    FiveFaults(f[0], f[1], f[2], f[3], Fault(Trust, false));
    FourFaults(f[0], f[1], f[2], f[3]);
    assert f == [f[0], f[1], f[2], f[3]];
    var g := BindingFaults(cr, r.binding, s, v);
    FiveFaults(g[0], g[1], g[2], g[3], g[4]);
    assert g == [g[0], g[1], g[2], g[3], g[4]];
    var t := TimeFaults(req, r.binding, s, v);
    UnfoldFaults(t);
    FiveFaults(t[1], t[2], t[3], t[4], t[5]);
    assert t[1..] == [t[1], t[2], t[3], t[4], t[5]];
  }

  lemma FourFaults(a: Fault, b: Fault, c: Fault, d: Fault)
    ensures FirstFault([a, b, c, d]) == FirstFault([a, b, c, d, Fault(Trust, false)])
  {
    FirstFaultConcat([a, b, c, d], [Fault(Trust, false)]);
    assert [a, b, c, d] + [Fault(Trust, false)] == [a, b, c, d, Fault(Trust, false)];
    assert [Fault(Trust, false)][1..] == [];
  }

  // The code reported is that of the first thing wrong, and a request with
  // nothing wrong passes its appraisal.
  lemma FirstFaultIsReported(cr: Crypto, req: Request)
    ensures !req.fleetLicensed ==> Appraise(cr, req) == Err(License)
    ensures var complete := && req.sender.Some? && req.receiver.Some? && req.record.Some?
                            && req.now != ZERO_TIME && req.maxAge > 0 && req.maxFutureSkew > 0;
            && (req.fleetLicensed && !complete ==> Appraise(cr, req) == Err(MissingInput))
            && (req.fleetLicensed && complete ==>
                  var fault := FirstFault(Faults(cr, req, req.record.value, req.sender.value, req.receiver.value));
                  if fault.Some? then Appraise(cr, req) == Err(fault.value) else Appraise(cr, req).Ok?)
  {
    hide FirstFault, ValidBinding, CrossChecks, NewReplayEntry, ReceiptFaults, SignatureFaults, BindingFaults, TimeFaults;
    if req.fleetLicensed && req.sender.Some? && req.receiver.Some? && req.record.Some? {
      var r, s, v := req.record.value, req.sender.value, req.receiver.value;
      var head := [Fault(MalformedBinding, !ValidBinding(r.binding)), Fault(SelfCounterparty, r.binding.sender == r.binding.receiver)];
      var a, b := ReceiptFaults(cr, s, req.senderReceiptKey, EGRESS, r.binding.receiver),
                  ReceiptFaults(cr, v, req.receiverReceiptKey, INGRESS, r.binding.sender);
      var c, d, e := SignatureFaults(cr, r, req), BindingFaults(cr, r.binding, s, v), TimeFaults(req, r.binding, s, v);
      FirstFaultConcat(head, a + (b + (c + (d + e))));
      UnfoldFaults(head);
      UnfoldFaults(head[1..]);
      UnfoldFaults(head[1..][1..]);
      if ValidBinding(r.binding) {
        CrossFaultIsReported(cr, req, r, s, v);
        EntryExists(cr, req, r, s, v);
      }
    }
  }

  lemma CrossFaultIsReported(cr: Crypto, req: Request, r: Record, s: BoundReceipt, v: BoundReceipt)
    requires ValidBinding(r.binding)
    ensures var a, b := ReceiptFaults(cr, s, req.senderReceiptKey, EGRESS, r.binding.receiver),
                        ReceiptFaults(cr, v, req.receiverReceiptKey, INGRESS, r.binding.sender);
            var c, d, e := SignatureFaults(cr, r, req), BindingFaults(cr, r.binding, s, v), TimeFaults(req, r.binding, s, v);
            FirstFault(a + (b + (c + (d + e)))) == CrossChecks(cr, req, r, s, v)
  {
    hide FirstFault, ValidBinding, VerifyBoundReceipt, VerifyRecordSignature, HashMatches, FreshnessFailure,
      ReceiptFaults, SignatureFaults, BindingFaults, TimeFaults;
    var a, b := ReceiptFaults(cr, s, req.senderReceiptKey, EGRESS, r.binding.receiver),
                ReceiptFaults(cr, v, req.receiverReceiptKey, INGRESS, r.binding.sender);
    var c, d, e := SignatureFaults(cr, r, req), BindingFaults(cr, r.binding, s, v), TimeFaults(req, r.binding, s, v);
    FirstFaultConcat(a, b + (c + (d + e)));
    FirstFaultConcat(b, c + (d + e));
    FirstFaultConcat(c, d + e);
    FirstFaultConcat(d, e);
    ReceiptFaultIsReported(cr, s, req.senderReceiptKey, EGRESS, r.binding.receiver);
    ReceiptFaultIsReported(cr, v, req.receiverReceiptKey, INGRESS, r.binding.sender);
    RestOfFaults(cr, req, r, s, v);
  }

  // Once every check has passed the entry's hashes exist.
  lemma EntryExists(cr: Crypto, req: Request, r: Record, s: BoundReceipt, v: BoundReceipt)
    ensures CrossChecks(cr, req, r, s, v).None? ==> NewReplayEntry(cr, r, s.receipt, v.receipt).Some?
  {
    hide ValidBinding, ValidCapture, HashMatches, FreshnessFailure;
  }

  // ---- The verifier ------------------------------------------------------

  datatype Verdict = Passed(nonce: NonceKey, signerKeyId: string) | Failed(code: FailureCode)

  // The store a request brings along.
  datatype Store = NoStore | InMemory(mem: MemReplayStore) | OnFile(file: FileReplayStore)

  function Footprint(store: Store): set<object> {
    match store
    case NoStore => {}
    case InMemory(mem) => {mem}
    case OnFile(file) => {file, file.disk}
  }

  // How a commit's outcome is reported.
  function Reported(e: Entry, r: CommitResult): Verdict {
    match r
    case Committed => Passed(e.nonceKey, e.nonceKey.sideRecordKeyId)
    case ReplayConflict => Failed(Replayed)
    case Malformed => Failed(ReplayStoreError)
    case StoreFailure => Failed(ReplayStoreError)
  }

  // A record passes if and only if its appraisal succeeds and its entry is new to
  // the store and written there; a rejection by the appraisal, or as a replay,
  // leaves the store as it was.  written and rival are what a file store's write
  // meets.
  method VerifyCounterparty(cr: Crypto, req: Request, store: Store, written: nat, rival: Option<nat>) returns (v: Verdict)
    requires store.OnFile? ==> store.file.Attached()
    modifies Footprint(store)
    ensures store.NoStore? ==> v == Failed(if req.fleetLicensed then MissingInput else License)
    ensures !store.NoStore? && Appraise(cr, req).Err? ==> v == Failed(Appraise(cr, req).code)
    ensures store.InMemory? && Appraise(cr, req).Err? ==> store.mem.View() == old(store.mem.View())
    ensures store.InMemory? && Appraise(cr, req).Ok? ==>
      var e, m := Appraise(cr, req).value, old(store.mem.View());
      var seen := e.nonceKey in m.nonces || e.transferKey in m.transfers;
      && (v == Passed(e.nonceKey, e.nonceKey.sideRecordKeyId) <==> ValidEntry(e) && !seen)
      && (v == Failed(Replayed) <==> ValidEntry(e) && seen)
      && (v == Failed(ReplayStoreError) <==> !ValidEntry(e))
      && (v.Passed? ==>
            store.mem.View() == MemView(m.nonces + {e.nonceKey}, m.transfers + {e.transferKey}, m.entries[KeyOf(e) := e]))
    ensures store.InMemory? && v.Failed? ==> store.mem.View() == old(store.mem.View())
    ensures store.OnFile? && (Appraise(cr, req).Err? || v == Failed(Replayed)) ==>
      store.file.disk.inodes == old(store.file.disk.inodes) && store.file.disk.path == old(store.file.disk.path)
    ensures store.OnFile? && Appraise(cr, req).Err? ==> store.file.H() == old(store.file.H())
    ensures store.OnFile? && Appraise(cr, req).Ok? ==>
      var e, f := Appraise(cr, req).value, store.file;
      var h, inodes, path := old(f.H()), old(f.disk.inodes), old(f.disk.path);
      var whole := written >= |LineOf(f.codec, e)|;
      && (v == Passed(e.nonceKey, e.nonceKey.sideRecordKeyId) <==>
            Admits(f.codec, inodes, path, h, e) && whole && (rival.None? || rival == Some(h.ino)))
      && (v == Failed(Replayed) <==> Knows(f.codec, inodes, path, h, e))
      && (v.Failed? ==> v.code == Replayed || v.code == ReplayStoreError)
      && (v == Failed(ReplayStoreError) && ValidEntry(e) ==> !f.healthy)
      && (v.Passed? ==> f.disk.inodes == inodes[h.ino := inodes[h.ino] + LineOf(f.codec, e)])
  {
    hide Appraise, ValidEntry, LineOf, SharedStore.Reread, Indexed;
    if store.NoStore? {
      return Failed(if !req.fleetLicensed then License else MissingInput);
    }
    var appraisal := Appraise(cr, req);
    match appraisal {
      case Err(code) => return Failed(code);
      case Ok(entry) =>
        AppraisalIsFresh(cr, req);
        var r;
        match store {
          case InMemory(mem) => r := mem.CommitIfNew(entry);
          case OnFile(file) => r := file.CommitIfNew(entry, written, rival);
        }
        return Reported(entry, r);
    }
  }

  // ---- What an appraisal establishes ------------------------------------

  ghost predicate SignedBy(cr: Crypto, key: Key, sum: Option<string>, signature: Signature) {
    && |key| == KEY_SIZE && signature.alg == SIGNATURE_ALG && sum.Some?
    && cr.decodeSignature(signature.sig).Some? && cr.verifies(key, sum.value, cr.decodeSignature(signature.sig).value)
  }

  // The party vouches, under its own receipt key, for having passed this payload
  // to or from the counterparty in the action of its receipt.
  ghost predicate Attests(cr: Crypto, br: BoundReceipt, key: Key, direction: string, party: string, counterparty: string,
                          payloadHash: string)
  {
    var c, action := br.capture, br.receipt.action;
    && br.receipt.signerKey == cr.keyHex(key) && cr.receiptVerifies(br.receipt, br.receipt.signerKey)
    && c.recordType == CAPTURE_TYPE && ValidCapture(c) && c.direction == direction
    && c.party == party == action.actor && c.counterparty == counterparty && c.payloadHash == payloadHash
    && c.actionId == action.actionId
    && cr.actionHash(action).Some? && c.actionHash == "sha256:" + cr.actionHash(action).value
    && SignedBy(cr, key, cr.captureHash(c), c.signature)
  }

  predicate InWindow(ts: int, req: Request) { req.now - req.maxAge <= ts <= req.now + req.maxFutureSkew }

  // The side record, signed by a third key, binds the two attestations together,
  // and everything is inside the freshness window.
  ghost predicate Vouched(cr: Crypto, req: Request, r: Record, s: BoundReceipt, v: BoundReceipt) {
    var b := r.binding;
    && r.recordType == RECORD_TYPE && ValidBinding(b) && b.sender != b.receiver
    && Attests(cr, s, req.senderReceiptKey, EGRESS, b.sender, b.receiver, b.payloadHash)
    && Attests(cr, v, req.receiverReceiptKey, INGRESS, b.receiver, b.sender, b.payloadHash)
    && s.receipt.signerKey != v.receipt.signerKey
    && r.signature.keyId == req.sideRecordKeyId != "" && SignedBy(cr, req.sideRecordKey, cr.recordHash(r.recordType, b), r.signature)
    && req.sideRecordKey != req.senderReceiptKey && req.sideRecordKey != req.receiverReceiptKey
    && s.receipt.action.actionId == b.senderReceiptId && v.receipt.action.actionId == b.receiverReceiptId
    && cr.receiptHash(s.receipt).Some? && "sha256:" + cr.receiptHash(s.receipt).value == b.senderReceiptHash
    && cr.receiptHash(v.receipt).Some? && "sha256:" + cr.receiptHash(v.receipt).value == b.receiverReceiptHash
    && InWindow(b.timestamp, req) && InWindow(s.receipt.action.timestamp, req) && InWindow(v.receipt.action.timestamp, req)
  }

  // An appraisal succeeds exactly for a licensed, complete request whose record
  // and receipts vouch for one transfer; the order of the checks only decides
  // which failure is reported.
  lemma AppraisalIsExact(cr: Crypto, req: Request)
    ensures Appraise(cr, req).Ok? <==>
            && req.fleetLicensed && req.sender.Some? && req.receiver.Some? && req.record.Some?
            && req.now != ZERO_TIME && req.maxAge > 0 && req.maxFutureSkew > 0
            && Vouched(cr, req, req.record.value, req.sender.value, req.receiver.value)
  {
    hide ValidBinding, ValidCapture;
  }

  // The entry is made from this record and these receipts, all inside the window;
  // its transfer key is forgotten exactly when one of the receipts is older than
  // the horizon.
  lemma AppraisalIsFresh(cr: Crypto, req: Request)
    requires Appraise(cr, req).Ok?
    ensures var e := Appraise(cr, req).value;
            var (s, v) := (req.sender.value.receipt.action, req.receiver.value.receipt.action);
            && req.sender.Some? && req.receiver.Some? && req.record.Some?
            && Unpruned(e) && e.timestamp == req.record.value.binding.timestamp
            && e.nonceKey.sideRecordKeyId == req.record.value.signature.keyId
            && e.nonceKey.sender == req.record.value.binding.sender && e.nonceKey.receiver == req.record.value.binding.receiver
            && e.nonceKey.nonce == req.record.value.binding.nonce
            && e.transferTimestamp == (if s.timestamp < v.timestamp then s.timestamp else v.timestamp)
            && (forall before :: Prune(e, before).transferPruned <==> s.timestamp < before || v.timestamp < before)
            && cr.recordHash(req.record.value.recordType, req.record.value.binding).Some?
            && e.recordHash == "sha256:" + cr.recordHash(req.record.value.recordType, req.record.value.binding).value
            && req.now - req.maxAge <= e.timestamp <= req.now + req.maxFutureSkew
            && req.now - req.maxAge <= e.transferTimestamp
            && s.timestamp <= req.now + req.maxFutureSkew && v.timestamp <= req.now + req.maxFutureSkew
  {
    hide ValidBinding, VerifyBoundReceipt, VerifyRecordSignature, HashMatches, SignedActionHash;
  }

  // Both parties attested the bound payload to each other under their own keys.
  lemma AppraisalBindsPayload(cr: Crypto, req: Request)
    requires Appraise(cr, req).Ok?
    ensures var b := req.record.value.binding;
            var (s, v) := (req.sender.value, req.receiver.value);
            && s.capture.payloadHash == b.payloadHash == v.capture.payloadHash
            && s.capture.direction == EGRESS && v.capture.direction == INGRESS
            && s.capture.party == b.sender == v.capture.counterparty
            && v.capture.party == b.receiver == s.capture.counterparty
            && s.receipt.signerKey == cr.keyHex(req.senderReceiptKey)
            && v.receipt.signerKey == cr.keyHex(req.receiverReceiptKey)
            && s.receipt.signerKey != v.receipt.signerKey && b.sender != b.receiver
            && cr.actionHash(s.receipt.action).Some? && s.capture.actionHash == "sha256:" + cr.actionHash(s.receipt.action).value
            && cr.actionHash(v.receipt.action).Some? && v.capture.actionHash == "sha256:" + cr.actionHash(v.receipt.action).value
            && Appraise(cr, req).value.transferKey ==
               TransferKey(b.sender, b.receiver, b.payloadHash, b.senderReceiptId, b.receiverReceiptId,
                           s.capture.actionHash, v.capture.actionHash)
  {
    hide ValidBinding, ValidCapture, HashMatches, FreshnessFailure, VerifyRecordSignature;
  }

  // Two appraised records share a nonce key exactly when they agree on signing key,
  // parties and nonce, and a transfer key exactly when they agree on the parties,
  // the payload, the receipts' IDs and the hashes of both signed actions.
  lemma KeysAgreeExactly(cr: Crypto, r1: Request, r2: Request)
    requires Appraise(cr, r1).Ok? && Appraise(cr, r2).Ok?
    ensures var (e1, e2, a, b) := (Appraise(cr, r1).value, Appraise(cr, r2).value, r1.record.value, r2.record.value);
            && (e1.nonceKey == e2.nonceKey <==>
                  && a.signature.keyId == b.signature.keyId && a.binding.sender == b.binding.sender
                  && a.binding.receiver == b.binding.receiver && a.binding.nonce == b.binding.nonce)
            && (e1.transferKey == e2.transferKey <==>
                  && a.binding.sender == b.binding.sender && a.binding.receiver == b.binding.receiver
                  && a.binding.payloadHash == b.binding.payloadHash
                  && a.binding.senderReceiptId == b.binding.senderReceiptId
                  && a.binding.receiverReceiptId == b.binding.receiverReceiptId
                  && cr.actionHash(r1.sender.value.receipt.action) == cr.actionHash(r2.sender.value.receipt.action)
                  && cr.actionHash(r1.receiver.value.receipt.action) == cr.actionHash(r2.receiver.value.receipt.action))
  {
    hide Appraise;
    AppraisalIsFresh(cr, r1);
    AppraisalIsFresh(cr, r2);
    AppraisalBindsPayload(cr, r1);
    AppraisalBindsPayload(cr, r2);
    var (s1, s2) := (r1.sender.value.receipt.action, r2.sender.value.receipt.action);
    var (v1, v2) := (r1.receiver.value.receipt.action, r2.receiver.value.receipt.action);
    LabelsAgree(cr.actionHash(s1).value, cr.actionHash(s2).value);
    LabelsAgree(cr.actionHash(v1).value, cr.actionHash(v2).value);
  }

  lemma LabelsAgree(x: string, y: string)
    ensures "sha256:" + x == "sha256:" + y <==> x == y
  {
    assert ("sha256:" + x)[7..] == x && ("sha256:" + y)[7..] == y;
  }

  ghost predicate Injective(cr: Crypto) {
    forall a, b :: cr.actionHash(a).Some? && cr.actionHash(a) == cr.actionHash(b) ==> a == b
  }

  // The transfer key pins down both signed actions, so re-signing the same
  // transfer cannot refresh its retention time.
  lemma TransferFixesItsTime(cr: Crypto, r1: Request, r2: Request)
    requires Injective(cr) && Appraise(cr, r1).Ok? && Appraise(cr, r2).Ok?
    requires Appraise(cr, r1).value.transferKey == Appraise(cr, r2).value.transferKey
    ensures r1.sender.value.receipt.action == r2.sender.value.receipt.action
    ensures r1.receiver.value.receipt.action == r2.receiver.value.receipt.action
    ensures Appraise(cr, r1).value.transferTimestamp == Appraise(cr, r2).value.transferTimestamp
  {
    hide Appraise;
    AppraisalBindsPayload(cr, r1);
    AppraisalBindsPayload(cr, r2);
    AppraisalIsFresh(cr, r1);
    AppraisalIsFresh(cr, r2);
    KeysAgreeExactly(cr, r1, r2);
  }

  // What a horizon within the verifier's own cutoff makes the store forget, the
  // verifier no longer accepts: neither the same transfer nor the same record.
  lemma ForgottenMeansStale(cr: Crypto, r1: Request, r2: Request, before: int)
    requires Injective(cr) && Appraise(cr, r1).Ok? && Appraise(cr, r2).Ok? && before <= r2.now - r2.maxAge
    ensures var (e1, e2) := (Appraise(cr, r1).value, Appraise(cr, r2).value);
            && (e1.transferKey == e2.transferKey ==> !Prune(e1, before).transferPruned)
            && (r1.record == r2.record ==> !Prune(e1, before).noncePruned)
  {
    hide Appraise, Injective;
    AppraisalIsFresh(cr, r1);
    AppraisalIsFresh(cr, r2);
    if Appraise(cr, r1).value.transferKey == Appraise(cr, r2).value.transferKey {
      TransferFixesItsTime(cr, r1, r2);
    }
  }
}
