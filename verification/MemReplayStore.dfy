// The in-memory replay store.
module MemReplayStore {
  import opened ReplaySet

  datatype CommitResult = Committed | ReplayConflict | Malformed | StoreFailure

  type EntryKey = (NonceKey, TransferKey)

  function KeyOf(e: Entry): EntryKey { (e.nonceKey, e.transferKey) }

  // The part of the store that decides answers: which keys are present, and
  // which entries are kept.  (The timestamps stored beside the keys are never read.)
  datatype MemView = MemView(nonces: set<NonceKey>, transfers: set<TransferKey>, entries: map<EntryKey, Entry>)

  function MemCommit(m: MemView, e: Entry): (CommitResult, MemView) {
    if !ValidEntry(e) then (Malformed, m)
    else if e.nonceKey in m.nonces || e.transferKey in m.transfers then (ReplayConflict, m)
    else (Committed, MemView(m.nonces + {e.nonceKey}, m.transfers + {e.transferKey}, m.entries[KeyOf(e) := e]))
  }

  predicate Expired(e: Entry, before: int) { e.timestamp < before && e.transferTimestamp < before }

  function KeptEntries(m: map<EntryKey, Entry>, before: int): map<EntryKey, Entry> {
    map k | k in m && !Expired(m[k], before) :: m[k]
  }

  function ExpiredKeys(m: map<EntryKey, Entry>, before: int): set<EntryKey> {
    set k | k in m && Expired(m[k], before)
  }

  function NoncesFrom(m: map<EntryKey, Entry>, before: int): set<NonceKey> {
    set k | k in m && m[k].timestamp >= before :: k.0
  }

  function TransfersFrom(m: map<EntryKey, Entry>, before: int): set<TransferKey> {
    set k | k in m && m[k].transferTimestamp >= before :: k.1
  }

  function MemCompact(m: MemView, before: int): (nat, MemView) {
    (|ExpiredKeys(m.entries, before)|,
     MemView(NoncesFrom(m.entries, before), TransfersFrom(m.entries, before), KeptEntries(m.entries, before)))
  }

  class MemReplayStore {
    var nonces: map<NonceKey, int>
    var transfers: map<TransferKey, int>
    var entries: map<EntryKey, Entry>

    function View(): MemView reads this { MemView(nonces.Keys, transfers.Keys, entries) }

    constructor ()
      ensures View() == MemView({}, {}, map[])
    {
      nonces, transfers, entries := map[], map[], map[];
    }

    method CommitIfNew(e: Entry) returns (r: CommitResult)
      modifies this
      ensures (r, View()) == MemCommit(old(View()), e)
    {
      hide ValidEntry;
      if !ValidEntry(e) { return Malformed; }
      if e.nonceKey in nonces { return ReplayConflict; }
      if e.transferKey in transfers { return ReplayConflict; }
      nonces := nonces[e.nonceKey := e.timestamp];
      transfers := transfers[e.transferKey := e.transferTimestamp];
      entries := entries[KeyOf(e) := e];
      assert nonces.Keys == old(nonces.Keys) + {e.nonceKey};
      assert transfers.Keys == old(transfers.Keys) + {e.transferKey};
      return Committed;
    }

    // Visits the entries in an arbitrary order, as Go's map iteration does.
    method Compact(before: int) returns (removed: nat)
      modifies this
      ensures (removed, View()) == MemCompact(old(View()), before)
    {
      var newNonces: map<NonceKey, int>, newTransfers: map<TransferKey, int> := map[], map[];
      removed := 0;
      var todo := entries.Keys;
      ghost var all := entries;
      ghost var gone: set<EntryKey> := {};
      while todo != {}
        invariant todo <= all.Keys && nonces == old(nonces) && transfers == old(transfers)
        invariant forall k :: k in gone <==> k in all && k !in todo && Expired(all[k], before)
        invariant entries == all - gone
        invariant removed == |gone|
        invariant forall n :: n in newNonces <==>
          exists k :: k in all && k !in todo && all[k].timestamp >= before && k.0 == n
        invariant forall t :: t in newTransfers <==>
          exists k :: k in all && k !in todo && all[k].transferTimestamp >= before && k.1 == t
        decreases todo
      {
        var key :| key in todo;
        var entry := entries[key];
        var keepNonce := entry.timestamp >= before;
        var keepTransfer := entry.transferTimestamp >= before;
        todo := todo - {key};
        if keepNonce { newNonces := newNonces[key.0 := entry.timestamp]; }
        if keepTransfer { newTransfers := newTransfers[key.1 := entry.transferTimestamp]; }
        if !keepNonce && !keepTransfer {
          entries := entries - {key};
          removed := removed + 1;
          gone := gone + {key};
        }
      }
      nonces, transfers := newNonces, newTransfers;
      CompactedView(old(View()), before, gone, newNonces.Keys, newTransfers.Keys);
    }
  }

  lemma CompactedView(m: MemView, before: int, gone: set<EntryKey>, nonces: set<NonceKey>, transfers: set<TransferKey>)
    requires forall k :: k in gone <==> k in m.entries && Expired(m.entries[k], before)
    requires forall n :: n in nonces <==> exists k :: k in m.entries && m.entries[k].timestamp >= before && k.0 == n
    requires forall t :: t in transfers <==>
               exists k :: k in m.entries && m.entries[k].transferTimestamp >= before && k.1 == t
    ensures MemCompact(m, before) == (|gone|, MemView(nonces, transfers, m.entries - gone))
  {
    var (n, v) := MemCompact(m, before);
    assert gone == ExpiredKeys(m.entries, before);
    assert v.entries == m.entries - gone;
    assert v.nonces == nonces;
    assert v.transfers == transfers;
  }
}
