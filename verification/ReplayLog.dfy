// The JSONL form of a replay set: one encoded entry per line.
module ReplayLog {
  import opened Optional
  import opened Lines
  import opened ReplaySet

  // The JSON line codec, kept abstract: an encoder and a decoder.
  datatype Codec = Codec(enc: Entry -> Bytes, dec: Bytes -> Option<Entry>)

  // What encoding/json guarantees: no raw newline, and decoding undoes encoding.
  ghost predicate Good(c: Codec) {
    forall e: Entry :: NewlineFree(c.enc(e)) && c.dec(c.enc(e)) == Some(e)
  }

  function LineOf(c: Codec, e: Entry): Bytes { c.enc(e) + [NEWLINE] }

  // parseReplayEntryLine: decode, give a legacy line its transfer time, validate.
  function ParseLine(c: Codec, raw: Bytes): Option<Entry> {
    match c.dec(raw)
    case None => None
    case Some(d) =>
      var e := if d.transferTimestamp == ZERO_TIME then d.(transferTimestamp := d.timestamp) else d;
      if ValidEntry(e) then Some(e) else None
  }

  // A legacy line without a transfer time keeps both keys on one clock, so they
  // are forgotten together.
  lemma LegacyKeysExpireTogether(c: Codec, raw: Bytes, before: int)
    requires c.dec(raw).Some? && c.dec(raw).value.transferTimestamp == ZERO_TIME && ParseLine(c, raw).Some?
    ensures var e := ParseLine(c, raw).value;
            && e == c.dec(raw).value.(transferTimestamp := c.dec(raw).value.timestamp)
            && (Unpruned(e) ==> (Prune(e, before).noncePruned <==> Prune(e, before).transferPruned))
  {
  }

  function ParseAll(c: Codec, lines: seq<Bytes>): (r: Option<seq<Entry>>)
    ensures r.Some? ==> |r.value| == |lines| && forall i :: 0 <= i < |lines| ==> ValidEntry(r.value[i])
  {
    if lines == [] then Some([])
    else
      match ParseAll(c, lines[..|lines| - 1])
      case None => None
      case Some(es) =>
        match ParseLine(c, lines[|lines| - 1])
        case None => None
        case Some(e) => Some(es + [e])
  }

  // What a reader of the whole file sees; None for a torn or corrupt file.
  function FileEntries(c: Codec, content: Bytes): Option<seq<Entry>> {
    if Tail(content) != [] then None else ParseAll(c, Complete(content))
  }

  function EncodeAll(c: Codec, es: seq<Entry>): Bytes {
    if es == [] then [] else EncodeAll(c, es[..|es| - 1]) + LineOf(c, es[|es| - 1])
  }

  lemma {:induction false} ParseConcat(c: Codec, a: seq<Bytes>, b: seq<Bytes>)
    ensures ParseAll(c, a + b).Some? <==> ParseAll(c, a).Some? && ParseAll(c, b).Some?
    ensures ParseAll(c, a + b).Some? ==>
              ParseAll(c, a + b).value == ParseAll(c, a).value + ParseAll(c, b).value
  {
    if b == [] {
      assert a + b == a;
    } else {
      ParseConcat(c, a, b[..|b| - 1]);
      assert (a + b)[..|a + b| - 1] == a + b[..|b| - 1];
    }
  }

  lemma ParseOne(c: Codec, line: Bytes)
    ensures ParseAll(c, [line]) ==
            if ParseLine(c, line).Some? then Some([ParseLine(c, line).value]) else None
  {
    assert ParseAll(c, [line][..0]) == Some([]);
    assert ParseLine(c, line).Some? ==> [] + [ParseLine(c, line).value] == [ParseLine(c, line).value];
  }

  lemma ParseWritten(c: Codec, e: Entry)
    requires Good(c) && ValidEntry(e)
    ensures ParseAll(c, [c.enc(e)]) == Some([e])
  {
    assert c.dec(c.enc(e)) == Some(e);
    ParseOne(c, c.enc(e));
  }

  // Reading on from an offset that ends a line continues the parse.
  lemma ReadOn(c: Codec, a: Bytes, b: Bytes)
    requires Tail(a) == []
    ensures Complete(a + b) == Complete(a) + Complete(b) && Tail(a + b) == Tail(b)
    ensures ParseAll(c, Complete(a + b)).Some? <==>
            ParseAll(c, Complete(a)).Some? && ParseAll(c, Complete(b)).Some?
    ensures ParseAll(c, Complete(a + b)).Some? ==>
              ParseAll(c, Complete(a + b)).value ==
              ParseAll(c, Complete(a)).value + ParseAll(c, Complete(b)).value
  {
    AppendComplete(a, b);
    ParseConcat(c, Complete(a), Complete(b));
  }

  // Appending an entry's whole line adds exactly that entry ...
  lemma AppendEntry(c: Codec, content: Bytes, e: Entry)
    requires Good(c) && ValidEntry(e) && Tail(content) == [] && ParseAll(c, Complete(content)).Some?
    ensures FileEntries(c, content + LineOf(c, e)) == Some(ParseAll(c, Complete(content)).value + [e])
  {
    assert NewlineFree(c.enc(e));
    OneLine(c.enc(e));
    ParseWritten(c, e);
    ReadOn(c, content, LineOf(c, e));
  }

  // ... and appending only part of it leaves the complete lines alone; if any
  // byte was written the file is torn, so no reader accepts it.
  lemma AppendTorn(c: Codec, content: Bytes, e: Entry, k: nat)
    requires Good(c) && Tail(content) == [] && k < |LineOf(c, e)|
    ensures Complete(content + LineOf(c, e)[..k]) == Complete(content)
    ensures k > 0 ==> FileEntries(c, content + LineOf(c, e)[..k]) == None
  {
    assert NewlineFree(c.enc(e));
    TornLine(c.enc(e), k);
    AppendComplete(content, LineOf(c, e)[..k]);
  }

  // A rewritten log reads back as the entries it was written from.
  lemma {:induction false} RewriteRoundTrip(c: Codec, es: seq<Entry>)
    requires Good(c) && forall i :: 0 <= i < |es| ==> ValidEntry(es[i])
    ensures FileEntries(c, EncodeAll(c, es)) == Some(es)
  {
    if es != [] {
      var init, last := es[..|es| - 1], es[|es| - 1];
      RewriteRoundTrip(c, init);
      AppendEntry(c, EncodeAll(c, init), last);
      assert es == init + [last];
    }
  }

  lemma {:induction false} CompactedIsValid(es: seq<Entry>, before: int)
    requires forall i :: 0 <= i < |es| ==> ValidEntry(es[i])
    ensures forall i :: 0 <= i < |Compacted(es, before)| ==> ValidEntry(Compacted(es, before)[i])
  {
    if es != [] {
      var init, last := es[..|es| - 1], es[|es| - 1];
      assert es == init + [last];
      CompactedIsValid(init, before);
      CompactedSnoc(init, last, before);
    }
  }
}
