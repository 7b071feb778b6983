// The assumptions made about codecs, hashes and the two-compactor scenario can
// be met: a unary encoding of entries, and of whatever else is hashed, meets them.
module Witnesses {
  import opened Optional
  import opened Lines
  import opened ReplaySet
  import opened ReplayLog
  import opened TwoCompactors
  import Counterparty
  import Provenance
  import Utf8

  // ---- A unary encoding --------------------------------------------------

  function Unary(n: nat): Bytes { if n == 0 then [0x30] else [0x31] + Unary(n - 1) }

  function UnaryAll(ns: seq<nat>): Bytes { if ns == [] then [] else Unary(ns[0]) + UnaryAll(ns[1..]) }

  lemma {:induction false} UnaryCancel(a: nat, b: nat, x: Bytes, y: Bytes)
    requires Unary(a) + x == Unary(b) + y
    ensures a == b && x == y
    decreases a
  {
    var s := Unary(a) + x;
    assert s[0] == Unary(a)[0] && s[0] == Unary(b)[0];
    if a == 0 {
      assert s[1..] == x && s[1..] == y;
    } else {
      assert s[1..] == Unary(a - 1) + x && s[1..] == Unary(b - 1) + y;
      UnaryCancel(a - 1, b - 1, x, y);
    }
  }

  lemma {:induction false} UnaryAllInjective(a: seq<nat>, b: seq<nat>)
    requires UnaryAll(a) == UnaryAll(b)
    ensures a == b
  {
    if a != [] && b != [] {
      UnaryCancel(a[0], b[0], UnaryAll(a[1..]), UnaryAll(b[1..]));
      UnaryAllInjective(a[1..], b[1..]);
      assert a == [a[0]] + a[1..] && b == [b[0]] + b[1..];
    } else {
      UnaryIsNotEmpty(a);
      UnaryIsNotEmpty(b);
    }
  }

  lemma UnaryIsNotEmpty(a: seq<nat>)
    ensures a != [] ==> UnaryAll(a) != []
  {
  }

  lemma {:induction false} UnaryNewlineFree(n: nat)
    ensures NewlineFree(Unary(n))
  {
    if n > 0 {
      UnaryNewlineFree(n - 1);
    }
  }

  lemma {:induction false} UnaryAllNewlineFree(ns: seq<nat>)
    ensures NewlineFree(UnaryAll(ns))
  {
    if ns != [] {
      UnaryNewlineFree(ns[0]);
      UnaryAllNewlineFree(ns[1..]);
    }
  }

  function Size(ns: seq<nat>): nat { if ns == [] then 0 else ns[0] + 1 + Size(ns[1..]) }

  lemma {:induction false} UnaryLength(n: nat)
    ensures |Unary(n)| == n + 1
  {
    if n > 0 {
      UnaryLength(n - 1);
    }
  }

  lemma {:induction false} UnaryAllLength(ns: seq<nat>)
    ensures |UnaryAll(ns)| == Size(ns)
  {
    if ns != [] {
      UnaryLength(ns[0]);
      UnaryAllLength(ns[1..]);
    }
  }

  lemma {:induction false} SizeConcat(a: seq<nat>, b: seq<nat>)
    ensures Size(a + b) == Size(a) + Size(b)
  {
    if a == [] {
      assert a + b == b;
    } else {
      assert (a + b)[1..] == a[1..] + b;
      SizeConcat(a[1..], b);
    }
  }

  // ---- Strings and numbers ----------------------------------------------

  function Codes(s: string): seq<nat> { seq(|s|, i requires 0 <= i < |s| => s[i] as nat) }

  function Counted(s: string): seq<nat> { [|s|] + Codes(s) }

  function CountedAll(ss: seq<string>): seq<nat> { if ss == [] then [] else Counted(ss[0]) + CountedAll(ss[1..]) }

  function Folded(i: int): nat { if i >= 0 then 2 * i else -2 * i - 1 }

  lemma CountedCancel(s: string, t: string, x: seq<nat>, y: seq<nat>)
    requires Counted(s) + x == Counted(t) + y
    ensures s == t && x == y
  {
    var all := Counted(s) + x;
    assert all[0] == |s| && all[0] == |t|;
    assert all[1..1 + |s|] == Codes(s) && all[1..1 + |s|] == Codes(t);
    assert forall i :: 0 <= i < |s| ==> Codes(s)[i] == s[i] as nat && Codes(t)[i] == t[i] as nat;
    assert all[1 + |s|..] == x && all[1 + |s|..] == y;
  }

  lemma {:induction false} CountedAllCancel(ss: seq<string>, ts: seq<string>, x: seq<nat>, y: seq<nat>)
    requires |ss| == |ts| && CountedAll(ss) + x == CountedAll(ts) + y
    ensures ss == ts && x == y
    decreases |ss|
  {
    hide Counted;
    if ss != [] {
      assert CountedAll(ss) + x == Counted(ss[0]) + (CountedAll(ss[1..]) + x);
      assert CountedAll(ts) + y == Counted(ts[0]) + (CountedAll(ts[1..]) + y);
      CountedCancel(ss[0], ts[0], CountedAll(ss[1..]) + x, CountedAll(ts[1..]) + y);
      CountedAllCancel(ss[1..], ts[1..], x, y);
      assert ss == [ss[0]] + ss[1..] && ts == [ts[0]] + ts[1..];
    } else {
      assert [] + x == x && [] + y == y;
    }
  }

  // Replacing one string changes the size by the difference of the two.
  lemma {:induction false} SizeUpdate(ss: seq<string>, i: nat, s: string)
    requires i < |ss|
    ensures Size(CountedAll(ss[i := s])) + Size(Counted(ss[i])) == Size(CountedAll(ss)) + Size(Counted(s))
    decreases i
  {
    hide Counted, Size;
    var ts := ss[i := s];
    SizeConcat(Counted(ss[0]), CountedAll(ss[1..]));
    SizeConcat(Counted(ts[0]), CountedAll(ts[1..]));
    if i == 0 {
      assert ts[1..] == ss[1..];
    } else {
      assert ts[1..] == ss[1..][i - 1 := s];
      SizeUpdate(ss[1..], i - 1, s);
    }
  }

  // ---- A codec -----------------------------------------------------------

  function Fields(e: Entry): seq<string> {
    [e.nonceKey.sideRecordKeyId, e.nonceKey.sender, e.nonceKey.receiver, e.nonceKey.nonce,
     e.transferKey.sender, e.transferKey.receiver, e.transferKey.payloadHash, e.transferKey.senderReceiptId,
     e.transferKey.receiverReceiptId, e.transferKey.senderActionHash, e.transferKey.receiverActionHash, e.recordHash]
  }

  function Numbers(e: Entry): seq<nat> {
    [Folded(e.timestamp), Folded(e.transferTimestamp), if e.noncePruned then 1 else 0, if e.transferPruned then 1 else 0]
  }

  function Encode(e: Entry): Bytes { UnaryAll(CountedAll(Fields(e)) + Numbers(e)) }

  ghost function Decode(b: Bytes): Option<Entry> {
    if exists e: Entry :: Encode(e) == b then
      var e: Entry :| Encode(e) == b;
      Some(e)
    else None
  }

  lemma EncodeInjective(x: Entry, y: Entry)
    requires Encode(x) == Encode(y)
    ensures x == y
  {
    hide CountedAll, UnaryAll;
    UnaryAllInjective(CountedAll(Fields(x)) + Numbers(x), CountedAll(Fields(y)) + Numbers(y));
    CountedAllCancel(Fields(x), Fields(y), Numbers(x), Numbers(y));
    SameFields(x, y);
  }

  lemma SameFields(x: Entry, y: Entry)
    requires Fields(x) == Fields(y) && Numbers(x) == Numbers(y)
    ensures x == y
  {
    var p, q, m, n := Fields(x), Fields(y), Numbers(x), Numbers(y);
    assert p[0] == q[0] && p[1] == q[1] && p[2] == q[2] && p[3] == q[3] && p[4] == q[4] && p[5] == q[5];
    assert p[6] == q[6] && p[7] == q[7] && p[8] == q[8] && p[9] == q[9] && p[10] == q[10] && p[11] == q[11];
    assert m[0] == n[0] && m[1] == n[1] && m[2] == n[2] && m[3] == n[3];
  }

  // Good can be met.
  lemma UnaryCodecIsGood() returns (c: Codec)
    ensures Good(c) && forall e :: c.enc(e) == Encode(e)
  {
    hide Encode;
    c := Codec(e => Encode(e), b => Decode(b));
    forall e: Entry ensures NewlineFree(c.enc(e)) && c.dec(c.enc(e)) == Some(e) {
      EncodeNewlineFree(e);
      var d := Decode(Encode(e)).value;
      EncodeInjective(d, e);
    }
  }

  lemma EncodeNewlineFree(e: Entry)
    ensures NewlineFree(Encode(e))
  {
    UnaryAllNewlineFree(CountedAll(Fields(e)) + Numbers(e));
  }

  // ---- The scenario of two compactors -----------------------------------

  function SomeHash(): string { HASH_PREFIX + seq(64, i => '0') }

  function SomeEntry(nonce: string, receiptId: string, ts: int, tts: int): Entry {
    var h := SomeHash();
    Entry(NonceKey("k", "s", "r", nonce), TransferKey("s", "r", h, receiptId, "i", h, h), h, ts, tts, false, false)
  }

  lemma SomeEntryIsValid(nonce: string, receiptId: string, ts: int, tts: int)
    requires ValidToken(nonce) && ValidToken(receiptId) && ts != ZERO_TIME && tts != ZERO_TIME
    ensures ValidEntry(SomeEntry(nonce, receiptId, ts, tts))
  {
    var h := SomeHash();
    assert HASH_PREFIX <= h;
    assert ValidToken("k") && ValidToken("s") && ValidToken("r") && ValidToken("i");
  }

  // Scenario can be met, together with Good.
  lemma ScenarioCanBeMet() returns (c: Codec, z: Entry, b: Entry, h1: int, h2: int)
    ensures Good(c) && Scenario(c, z, b, h1, h2)
  {
    hide Good, Encode, ValidEntry;
    c := UnaryCodecIsGood();
    z, b, h1, h2 := SomeEntry("g", "a", 1, 2), SomeEntry("a", "b", 3, 3), 2, 3;
    assert "g"[0] == 'g' && "a"[0] == 'a' && "b"[0] == 'b';
    SomeEntryIsValid("g", "a", 1, 2);
    SomeEntryIsValid("a", "b", 3, 3);
    SameLength(z, b);
  }

  lemma SameLength(z: Entry, b: Entry)
    requires z == SomeEntry("g", "a", 1, 2) && b == SomeEntry("a", "b", 3, 3)
    ensures |Encode(Prune(z, 2))| == |Encode(b)|
  {
    hide CountedAll, UnaryAll, Size, Counted, SomeHash, Fields;
    var x := Prune(z, 2);
    var p, q := Fields(x), Fields(b);
    UnaryAllLength(CountedAll(p) + Numbers(x));
    UnaryAllLength(CountedAll(q) + Numbers(b));
    SizeConcat(CountedAll(p), Numbers(x));
    SizeConcat(CountedAll(q), Numbers(b));
    FieldsDiffer(x, b);
    SizeUpdate(p, 3, "a");
    SizeUpdate(p[3 := "a"], 7, "b");
    SizeOfLetter("g", 103);
    SizeOfLetter("a", 97);
    SizeOfLetter("b", 98);
    SizeOfFour(2, 4, 1, 0);
    SizeOfFour(6, 6, 0, 0);
  }

  lemma FieldsDiffer(x: Entry, b: Entry)
    requires x.(noncePruned := false) == SomeEntry("g", "a", 1, 2) && b == SomeEntry("a", "b", 3, 3)
    ensures |Fields(x)| == 12 && Fields(x)[3] == "g" && Fields(x)[7] == "a" && Fields(b) == Fields(x)[3 := "a"][7 := "b"]
  {
  }

  lemma SizeOfLetter(s: string, code: nat)
    requires |s| == 1 && s[0] as nat == code
    ensures Size(Counted(s)) == code + 3
  {
    assert Counted(s) == [1, code] && [1, code][1..] == [code] && [code][1..] == [];
    assert Size([code]) == code + 1 + Size([]);
  }

  lemma SizeOfFour(a: nat, b: nat, c: nat, d: nat)
    ensures Size([a, b, c, d]) == a + b + c + d + 4
  {
    assert [a, b, c, d][1..] == [b, c, d] && [b, c, d][1..] == [c, d] && [c, d][1..] == [d] && [d][1..] == [];
    assert Size([d]) == d + 1 + Size([]);
    assert Size([c, d]) == c + 1 + Size([d]);
    assert Size([b, c, d]) == b + 1 + Size([c, d]);
  }

  // ---- Injective hashes --------------------------------------------------

  function Text(b: Bytes): string { seq(|b|, i requires 0 <= i < |b| => b[i] as char) }

  lemma TextInjective(a: Bytes, b: Bytes)
    requires Text(a) == Text(b)
    ensures a == b
  {
    assert |a| == |b|;
    forall i | 0 <= i < |a| ensures a[i] == b[i] {
      assert Text(a)[i] == a[i] as char && Text(b)[i] == b[i] as char;
    }
  }

  function ActionText(a: Counterparty.ActionRecord): string {
    Text(UnaryAll(CountedAll([a.actionId, a.actor, a.rest]) + [Folded(a.timestamp)]))
  }

  lemma ActionTextInjective(a: Counterparty.ActionRecord, b: Counterparty.ActionRecord)
    requires ActionText(a) == ActionText(b)
    ensures a == b
  {
    hide CountedAll, UnaryAll, Text;
    var x, y := [a.actionId, a.actor, a.rest], [b.actionId, b.actor, b.rest];
    var m, n := [Folded(a.timestamp)], [Folded(b.timestamp)];
    TextInjective(UnaryAll(CountedAll(x) + m), UnaryAll(CountedAll(y) + n));
    UnaryAllInjective(CountedAll(x) + m, CountedAll(y) + n);
    CountedAllCancel(x, y, m, n);
    assert x[0] == y[0] && x[1] == y[1] && x[2] == y[2] && m[0] == n[0];
  }

  // Counterparty.Injective can be met.
  lemma InjectiveCryptoExists() returns (cr: Counterparty.Crypto)
    ensures Counterparty.Injective(cr)
  {
    hide ActionText;
    cr := Counterparty.Crypto(a => Some(ActionText(a)), r => None, (t, b) => None, p => None, (r, k) => false, s => None,
                              (k, s, t) => false, k => k);
    forall a, b | cr.actionHash(a).Some? && cr.actionHash(a) == cr.actionHash(b) ensures a == b {
      ActionTextInjective(a, b);
    }
  }

  // ---- A request that passes its appraisal -------------------------------

  function Times(n: nat, c: char): string { seq(n, i => c) }

  function Act(actor: string): Counterparty.ActionRecord { Counterparty.ActionRecord("i", actor, 5, "") }

  // Hex of the right length for the two actions at hand, injective everywhere.
  function ActionHash(a: Counterparty.ActionRecord): string {
    if a == Act("s") then Times(64, '0') else if a == Act("r") then Times(64, '1') else "x" + ActionText(a)
  }

  lemma ActionHashInjective(a: Counterparty.ActionRecord, b: Counterparty.ActionRecord)
    requires ActionHash(a) == ActionHash(b)
    ensures a == b
  {
    hide ActionText;
    var x := ActionHash(a);
    assert Times(64, '0')[0] == '0' && Times(64, '1')[0] == '1';
    assert ("x" + ActionText(a))[0] == 'x' && ("x" + ActionText(b))[0] == 'x';
    if a != Act("s") && a != Act("r") {
      assert ("x" + ActionText(a))[1..] == ActionText(a) && ("x" + ActionText(b))[1..] == ActionText(b);
      ActionTextInjective(a, b);
    }
  }

  function Signed(keyId: string): Counterparty.Signature { Counterparty.Signature(Counterparty.SIGNATURE_ALG, keyId, "") }

  function Bound(actor: string, other: string, key: string, hash: string, direction: string): Counterparty.BoundReceipt {
    Counterparty.BoundReceipt(
      Counterparty.Receipt(Act(actor), key, ""),
      Counterparty.PayloadCapture(Counterparty.CAPTURE_TYPE, "i", HASH_PREFIX + hash, SomeHash(), direction, actor, other, Signed(key)))
  }

  function TrustingCrypto(): Counterparty.Crypto {
    Counterparty.Crypto(
      a => Some(ActionHash(a)), r => Some(Times(64, '0')), (t, b) => Some(Times(64, '0')), p => Some(""), (r, k) => true,
      s => Some(""), (k, s, t) => true, k => k)
  }

  function GoodRequest(): Counterparty.Request {
    var ks, kr, k := Times(32, 'a'), Times(32, 'b'), Times(32, 'c');
    Counterparty.Request(
      true, Some(Bound("s", "r", ks, Times(64, '0'), Counterparty.EGRESS)),
      Some(Bound("r", "s", kr, Times(64, '1'), Counterparty.INGRESS)),
      Some(Counterparty.Record(
             Counterparty.RECORD_TYPE,
             Counterparty.Binding(SomeHash(), "s", "r", "n", "i", SomeHash(), "i", SomeHash(), 5, Counterparty.BINDING_VERSION),
             Signed("k"))),
      ks, kr, k, "k", 6, 2, 2)
  }

  lemma HexIsHash(c: char)
    requires LowerHex(c)
    ensures ValidHash(HASH_PREFIX + Times(64, c))
  {
    var h := HASH_PREFIX + Times(64, c);
    assert HASH_PREFIX <= h;
  }

  lemma GoodRequestIsVouched()
    ensures var req := GoodRequest();
            Counterparty.Vouched(TrustingCrypto(), req, req.record.value, req.sender.value, req.receiver.value)
  {
    hide ActionHash, ValidHash, ValidToken;
    var cr, req := TrustingCrypto(), GoodRequest();
    HexIsHash('0');
    HexIsHash('1');
    assert SomeHash() == HASH_PREFIX + Times(64, '0');
    Tokens();
    assert Times(32, 'a')[0] == 'a' && Times(32, 'b')[0] == 'b' && Times(32, 'c')[0] == 'c';
    HashesOfActs();
  }

  lemma Tokens()
    ensures ValidToken("s") && ValidToken("r") && ValidToken("n") && ValidToken("i") && ValidToken("k")
  {
  }

  lemma HashesOfActs()
    ensures ActionHash(Act("s")) == Times(64, '0') && ActionHash(Act("r")) == Times(64, '1')
  {
    assert "s"[0] == 's' && "r"[0] == 'r';
  }

  // The verifier's theorems are not about nothing: with an injective hash some
  // request passes its appraisal, with an entry that the stores accept.
  lemma AppraisalCanSucceed() returns (cr: Counterparty.Crypto, req: Counterparty.Request)
    ensures Counterparty.Injective(cr) && Counterparty.Appraise(cr, req).Ok?
    ensures ValidEntry(Counterparty.Appraise(cr, req).value)
  {
    hide ActionHash, Counterparty.Appraise, Counterparty.Vouched, ValidHash, ValidToken;
    cr, req := TrustingCrypto(), GoodRequest();
    forall a, b | cr.actionHash(a).Some? && cr.actionHash(a) == cr.actionHash(b) ensures a == b {
      ActionHashInjective(a, b);
    }
    GoodRequestIsVouched();
    Counterparty.AppraisalIsExact(cr, req);
    Counterparty.AppraisalIsFresh(cr, req);
    Counterparty.AppraisalBindsPayload(cr, req);
    HexIsHash('0');
    HexIsHash('1');
    assert SomeHash() == HASH_PREFIX + Times(64, '0');
    Tokens();
  }

  // ---- A hash for the provenance chain -----------------------------------

  function ByteText(b: Utf8.Bytes): string { seq(|b|, i requires 0 <= i < |b| => b[i] as char) }

  // Provenance.InjectiveHash can be met.
  lemma InjectiveHashExists() returns (env: Provenance.Env)
    ensures Provenance.InjectiveHash(env)
  {
    env := Provenance.Env(b => None, (k, b, s) => false, b => ByteText(b), p => false,
                          (r, b) => Provenance.Execution([], None), (k, s, b) => None, (k, s, m) => None);
    forall a, b | env.sha256(a) == env.sha256(b) ensures a == b {
      assert |a| == |b|;
      forall i | 0 <= i < |a| ensures a[i] == b[i] {
        assert ByteText(a)[i] == a[i] as char && ByteText(b)[i] == b[i] as char;
      }
    }
  }
}
