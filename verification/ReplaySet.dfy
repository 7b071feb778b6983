// The replay set that both replay stores implement: which signed records and
// which transfers have been accepted, and which of their keys a compaction has
// since forgotten.
module ReplaySet {

  datatype NonceKey = NonceKey(sideRecordKeyId: string, sender: string, receiver: string, nonce: string)

  datatype TransferKey = TransferKey(
    sender: string, receiver: string, payloadHash: string,
    senderReceiptId: string, receiverReceiptId: string,
    senderActionHash: string, receiverActionHash: string)

  // Times are integers; ZERO_TIME stands for Go's zero time.Time ("absent").
  const ZERO_TIME: int := 0

  datatype Entry = Entry(
    nonceKey: NonceKey, transferKey: TransferKey, recordHash: string,
    timestamp: int, transferTimestamp: int,
    noncePruned: bool, transferPruned: bool)

  // ---- Entry validation -------------------------------------------------

  const MAX_TOKEN_LEN := 256
  const HASH_PREFIX := "sha256:"

  predicate ValidToken(s: string) {
    0 < |s| <= MAX_TOKEN_LEN && forall i :: 0 <= i < |s| ==> '!' <= s[i] <= '~'
  }

  predicate LowerHex(c: char) { '0' <= c <= '9' || 'a' <= c <= 'f' }

  predicate ValidHash(s: string) {
    HASH_PREFIX <= s && |s| == |HASH_PREFIX| + 64
    && forall i :: |HASH_PREFIX| <= i < |s| ==> LowerHex(s[i])
  }

  predicate ValidEntry(e: Entry) {
    && ValidToken(e.nonceKey.sideRecordKeyId) && ValidToken(e.nonceKey.sender)
    && ValidToken(e.nonceKey.receiver) && ValidToken(e.nonceKey.nonce)
    && ValidToken(e.transferKey.sender) && ValidToken(e.transferKey.receiver)
    && ValidHash(e.transferKey.payloadHash)
    && ValidToken(e.transferKey.senderReceiptId) && ValidToken(e.transferKey.receiverReceiptId)
    && ValidHash(e.transferKey.senderActionHash) && ValidHash(e.transferKey.receiverActionHash)
    && ValidHash(e.recordHash)
    && e.timestamp != ZERO_TIME && e.transferTimestamp != ZERO_TIME
    && !Dead(e)
  }

  // The demands on an entry's fields, field by field.
  lemma ValidEntryExactly(e: Entry)
    ensures ValidEntry(e) <==>
            && (forall s :: s in TokenFields(e) ==> CleanToken(s))
            && (forall h :: h in HashFields(e) ==> CleanHash(h))
            && e.timestamp != 0 && e.transferTimestamp != 0 && (!e.noncePruned || !e.transferPruned)
  {
    hide ValidToken, ValidHash, CleanToken, CleanHash;
    forall s ensures ValidToken(s) <==> CleanToken(s) { TokenIsClean(s); }
    forall h ensures ValidHash(h) <==> CleanHash(h) { HashIsClean(h); }
  }

  function TokenFields(e: Entry): seq<string> {
    [e.nonceKey.sideRecordKeyId, e.nonceKey.sender, e.nonceKey.receiver, e.nonceKey.nonce, e.transferKey.sender,
     e.transferKey.receiver, e.transferKey.senderReceiptId, e.transferKey.receiverReceiptId]
  }

  function HashFields(e: Entry): seq<string> {
    [e.transferKey.payloadHash, e.transferKey.senderActionHash, e.transferKey.receiverActionHash, e.recordHash]
  }

  // Printable ASCII without spaces, at most 256 characters, and not empty.
  ghost predicate CleanToken(s: string) {
    s != "" && |s| <= 256 && forall c :: c in s ==> 0x21 <= c as int <= 0x7e
  }

  // "sha256:" and 64 lower-case hex digits.
  ghost predicate CleanHash(h: string) {
    |h| == 71 && h[..7] == "sha256:" && forall i :: 7 <= i < 71 ==> h[i] in "0123456789abcdef"
  }

  lemma TokenIsClean(s: string)
    ensures ValidToken(s) <==> CleanToken(s)
  {
    assert '!' as int == 0x21 && '~' as int == 0x7e;
    assert forall i :: 0 <= i < |s| ==> s[i] in s;
    assert forall c :: c in s ==> exists i :: 0 <= i < |s| && s[i] == c;
  }

  lemma HashIsClean(h: string)
    ensures ValidHash(h) <==> CleanHash(h)
  {
    if |h| == 71 {
      assert HASH_PREFIX <= h <==> h[..7] == "sha256:";
      forall i | 7 <= i < 71 ensures LowerHex(h[i]) <==> h[i] in "0123456789abcdef" { HexDigits(h[i]); }
    }
  }

  lemma HexDigits(c: char)
    ensures LowerHex(c) <==> c in "0123456789abcdef"
  {
    var d := "0123456789abcdef";
    assert d == ['0', '1', '2', '3', '4', '5', '6', '7', '8', '9', 'a', 'b', 'c', 'd', 'e', 'f'];
  }

  predicate Dead(e: Entry) { e.noncePruned && e.transferPruned }

  predicate Unpruned(e: Entry) { !e.noncePruned && !e.transferPruned }

  // ---- The abstract replay set -----------------------------------------
  // A replay set is the sequence of every entry ever accepted, each with the
  // flags that say which of its two keys have been forgotten.

  predicate Clash(x: Entry, e: Entry) {
    || (!x.noncePruned && x.nonceKey == e.nonceKey)
    || (!x.transferPruned && x.transferKey == e.transferKey)
  }

  predicate Conflicts(h: seq<Entry>, e: Entry) {
    exists i :: 0 <= i < |h| && Clash(h[i], e)
  }

  // A compaction forgets each key whose own clock is strictly before the horizon.
  function Prune(e: Entry, before: int): Entry {
    e.(noncePruned := e.noncePruned || e.timestamp < before,
       transferPruned := e.transferPruned || e.transferTimestamp < before)
  }

  function PruneAll(h: seq<Entry>, before: int): (r: seq<Entry>)
    ensures |r| == |h| && forall i :: 0 <= i < |h| ==> r[i] == Prune(h[i], before)
  {
    if h == [] then [] else PruneAll(h[..|h| - 1], before) + [Prune(h[|h| - 1], before)]
  }

  // The entries that still hold at least one key.
  function Retained(h: seq<Entry>): seq<Entry> {
    if h == [] then []
    else
      var rest := Retained(h[..|h| - 1]);
      if Dead(h[|h| - 1]) then rest else rest + [h[|h| - 1]]
  }

  function Compacted(h: seq<Entry>, before: int): seq<Entry> {
    Retained(PruneAll(h, before))
  }

  // How many entries lose their last key at this horizon.
  function RemovedCount(h: seq<Entry>, before: int): nat {
    if h == [] then 0
    else
      var last := h[|h| - 1];
      RemovedCount(h[..|h| - 1], before) + (if !Dead(last) && Dead(Prune(last, before)) then 1 else 0)
  }

  lemma RetainedSnoc(h: seq<Entry>, e: Entry)
    ensures Retained(h + [e]) == if Dead(e) then Retained(h) else Retained(h) + [e]
  {
    assert (h + [e])[..|h|] == h;
  }

  lemma PruneAllSnoc(h: seq<Entry>, e: Entry, before: int)
    ensures PruneAll(h + [e], before) == PruneAll(h, before) + [Prune(e, before)]
  {
    assert (h + [e])[..|h|] == h;
  }

  lemma CompactedSnoc(h: seq<Entry>, e: Entry, before: int)
    ensures Compacted(h + [e], before) ==
            if Dead(Prune(e, before)) then Compacted(h, before) else Compacted(h, before) + [Prune(e, before)]
  {
    PruneAllSnoc(h, e, before);
    RetainedSnoc(PruneAll(h, before), Prune(e, before));
  }

  lemma {:induction false} RetainedMembers(h: seq<Entry>, x: Entry)
    ensures x in Retained(h) <==> x in h && !Dead(x)
  {
    if h != [] {
      RetainedMembers(h[..|h| - 1], x);
      assert h == h[..|h| - 1] + [h[|h| - 1]];
    }
  }

  // Dropping fully forgotten entries changes no answer ...
  lemma RetainedKeepsAnswers(h: seq<Entry>, e: Entry)
    ensures Conflicts(Retained(h), e) <==> Conflicts(h, e)
  {
    if Conflicts(h, e) {
      var i :| 0 <= i < |h| && Clash(h[i], e);
      RetainedMembers(h, h[i]);
      var k :| 0 <= k < |Retained(h)| && Retained(h)[k] == h[i];
    }
    if Conflicts(Retained(h), e) {
      var i :| 0 <= i < |Retained(h)| && Clash(Retained(h)[i], e);
      RetainedMembers(h, Retained(h)[i]);
      var k :| 0 <= k < |h| && h[k] == Retained(h)[i];
    }
  }

  // ... commutes with compaction, and loses no removal from the count.
  lemma {:induction false} CompactRetained(h: seq<Entry>, before: int)
    ensures Compacted(Retained(h), before) == Compacted(h, before)
    ensures RemovedCount(Retained(h), before) == RemovedCount(h, before)
    ensures |Retained(h)| == |Compacted(h, before)| + RemovedCount(h, before)
  {
    if h != [] {
      var init, last := h[..|h| - 1], h[|h| - 1];
      assert h == init + [last];
      CompactRetained(init, before);
      CompactedSnoc(init, last, before);
      CompactedSnoc(Retained(init), last, before);
      var r := Retained(init) + [last];
      assert r[..|r| - 1] == Retained(init);
    }
  }

  lemma {:induction false} RetainedIdempotent(h: seq<Entry>)
    requires forall i :: 0 <= i < |h| ==> !Dead(h[i])
    ensures Retained(h) == h
  {
    if h != [] {
      RetainedIdempotent(h[..|h| - 1]);
    }
  }

  // A compaction that removes nothing from the log and changes no flag leaves
  // the whole replay set as it was.
  lemma NoOpCompaction(h: seq<Entry>, before: int)
    requires PruneAll(Retained(h), before) == Retained(h)
    ensures PruneAll(h, before) == h
  {
    forall i | 0 <= i < |h| ensures Prune(h[i], before) == h[i] {
      if !Dead(h[i]) {
        RetainedMembers(h, h[i]);
        var k :| 0 <= k < |Retained(h)| && Retained(h)[k] == h[i];
        assert PruneAll(Retained(h), before)[k] == Prune(h[i], before);
      }
    }
  }

  // ---- The in-memory index of a log ------------------------------------

  datatype Index = Index(nonces: map<NonceKey, int>, transfers: map<TransferKey, int>)

  const EMPTY_INDEX := Index(map[], map[])

  // indexLine: a pruned key is not restored.
  function IndexEntry(ix: Index, e: Entry): Index {
    Index(if e.noncePruned then ix.nonces else ix.nonces[e.nonceKey := e.timestamp],
          if e.transferPruned then ix.transfers else ix.transfers[e.transferKey := e.transferTimestamp])
  }

  function IndexMore(ix: Index, es: seq<Entry>): Index {
    if es == [] then ix else IndexEntry(IndexMore(ix, es[..|es| - 1]), es[|es| - 1])
  }

  function IndexOf(es: seq<Entry>): Index { IndexMore(EMPTY_INDEX, es) }

  predicate Indexed(ix: Index, e: Entry) {
    e.nonceKey in ix.nonces || e.transferKey in ix.transfers
  }

  lemma IndexSnoc(ix: Index, es: seq<Entry>, e: Entry)
    ensures IndexMore(ix, es + [e]) == IndexEntry(IndexMore(ix, es), e)
  {
    assert (es + [e])[..|es|] == es;
  }

  lemma {:induction false} IndexConcat(ix: Index, a: seq<Entry>, b: seq<Entry>)
    ensures IndexMore(IndexMore(ix, a), b) == IndexMore(ix, a + b)
  {
    if b == [] {
      assert a + b == a;
    } else {
      IndexConcat(ix, a, b[..|b| - 1]);
      assert a + b == (a + b[..|b| - 1]) + [b[|b| - 1]];
      IndexSnoc(ix, a + b[..|b| - 1], b[|b| - 1]);
    }
  }

  // The index answers exactly the replay-set question.
  lemma {:induction false} IndexAnswers(es: seq<Entry>, e: Entry)
    ensures e.nonceKey in IndexOf(es).nonces <==>
            exists i :: 0 <= i < |es| && !es[i].noncePruned && es[i].nonceKey == e.nonceKey
    ensures e.transferKey in IndexOf(es).transfers <==>
            exists i :: 0 <= i < |es| && !es[i].transferPruned && es[i].transferKey == e.transferKey
    ensures Indexed(IndexOf(es), e) <==> Conflicts(es, e)
  {
    if es != [] {
      var init, last := es[..|es| - 1], es[|es| - 1];
      IndexAnswers(init, e);
      assert forall i :: 0 <= i < |init| ==> es[i] == init[i];
      assert Conflicts(es, e) <==> Conflicts(init, e) || Clash(last, e);
    }
  }
}
