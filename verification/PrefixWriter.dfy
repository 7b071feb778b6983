// A writer that prepends a fixed prefix to each line passed through it and holds
// back the unterminated tail until its newline arrives.
module PrefixWriter {
  import opened Lines

  // What the underlying writer does with its n-th call: it takes everything, or
  // it fails after taking at most `partial` bytes.
  datatype Outcome = Accepts | Fails(partial: nat)

  type Outcomes = nat -> Outcome

  class Sink {
    const outcomes: Outcomes
    var written: Bytes
    var calls: nat

    constructor (outcomes: Outcomes)
      ensures this.outcomes == outcomes && written == [] && calls == 0
    {
      this.outcomes, written, calls := outcomes, [], 0;
    }

    method Put(data: Bytes) returns (ok: bool)
      modifies this
      ensures calls == old(calls) + 1
      ensures ok <==> outcomes(old(calls)).Accepts?
      ensures written == old(written) + Taken(outcomes(old(calls)), data)
    {
      ok := outcomes(calls).Accepts?;
      written := written + Taken(outcomes(calls), data);
      calls := calls + 1;
    }
  }

  function Taken(o: Outcome, data: Bytes): Bytes {
    if o.Accepts? || o.partial >= |data| then data else data[..o.partial]
  }

  class PrefixWriter {
    const prefix: Bytes
    const sink: Sink
    var buf: Bytes

    constructor (prefix: Bytes, sink: Sink)
      ensures this.prefix == prefix && this.sink == sink && buf == []
    {
      this.prefix, this.sink, buf := prefix, sink, [];
    }

    ghost function Now(): State reads this, sink { State(sink.written, buf, sink.calls) }

    // A failing call reports 0 bytes but keeps the chunk: what was not delivered
    // stays in buf.
    method Write(p: Bytes) returns (n: nat, ok: bool)
      modifies this, sink
      ensures Now() == After(prefix, sink.outcomes, old(Now()), p)
      ensures ok <==> Succeeds(sink.outcomes, old(Now()), p)
      ensures n == if ok then |p| else 0
    {
      hide Complete, Tail, FirstNewline, Join, Prefixed, Accepted;
      buf := buf + p;
      ghost var all, first := buf, sink.calls;
      ghost var lines, done := Complete(all), 0;
      PrefixedNothing(prefix);
      assert lines[..0] == [] && lines[0..] == lines;
      while true
        invariant 0 <= done <= |lines|
        invariant Complete(buf) == lines[done..] && Tail(buf) == Tail(all)
        invariant sink.calls == first + done
        invariant forall i :: first <= i < first + done ==> sink.outcomes(i).Accepts?
        invariant sink.written == old(sink.written) + Prefixed(prefix, lines[..done])
        decreases |buf|
      {
        UnfoldSplit(buf);
        var idx := FirstNewline(buf);
        if idx < 0 {
          assert lines[..done] == lines;
          AcceptedIs(sink.outcomes, first, |lines|, done);
          break;
        }
        var line := buf[..idx + 1];
        assert line == lines[done] + [NEWLINE];
        ghost var sofar := Prefixed(prefix, lines[..done]);
        var accepted := sink.Put(prefix + line);
        assert prefix + line == prefix + lines[done] + [NEWLINE];
        if !accepted {
          SplitIsLossless(buf);
          AcceptedIs(sink.outcomes, first, |lines|, done);
          return 0, false;
        }
        PrefixedSnoc(prefix, lines, done);
        assert (old(sink.written) + sofar) + (prefix + line) == old(sink.written) + (sofar + (prefix + line));
        buf := buf[idx + 1..];
        done := done + 1;
      }
      return |p|, true;
    }
  }

  // ---- Specification -----------------------------------------------------

  datatype State = State(written: Bytes, buf: Bytes, calls: nat)

  function Prefixed(prefix: Bytes, ls: seq<Bytes>): Bytes {
    if ls == [] then [] else prefix + ls[0] + [NEWLINE] + Prefixed(prefix, ls[1..])
  }

  // How many of n calls succeed before the first failure.
  function Accepted(o: Outcomes, first: nat, n: nat): (k: nat)
    ensures k <= n && (forall i :: first <= i < first + k ==> o(i).Accepts?)
    ensures k < n ==> o(first + k).Fails?
    decreases n
  {
    if n == 0 || o(first).Fails? then 0 else 1 + Accepted(o, first + 1, n - 1)
  }

  lemma AcceptedIs(o: Outcomes, first: nat, n: nat, k: nat)
    requires k <= n && (forall i :: first <= i < first + k ==> o(i).Accepts?) && (k < n ==> o(first + k).Fails?)
    ensures Accepted(o, first, n) == k
  {
    hide Accepted;
    var a := Accepted(o, first, n);
    assert a < n ==> o(first + a).Fails?;
    assert k < n ==> o(first + k).Fails?;
  }

  function LinesSent(o: Outcomes, s: State, p: Bytes): seq<Bytes> {
    var lines := Complete(s.buf + p);
    lines[..Accepted(o, s.calls, |lines|)]
  }

  predicate Succeeds(o: Outcomes, s: State, p: Bytes) {
    |LinesSent(o, s, p)| == |Complete(s.buf + p)|
  }

  function After(prefix: Bytes, o: Outcomes, s: State, p: Bytes): State {
    var lines, k := Complete(s.buf + p), |LinesSent(o, s, p)|;
    var sent := s.written + Prefixed(prefix, lines[..k]);
    if k == |lines| then State(sent, Tail(s.buf + p), s.calls + k)
    else State(
           sent + Taken(o(s.calls + k), prefix + lines[k] + [NEWLINE]),
           Join(lines[k..]) + Tail(s.buf + p),
           s.calls + k + 1)
  }

  lemma {:induction false} PrefixedConcat(prefix: Bytes, a: seq<Bytes>, b: seq<Bytes>)
    ensures Prefixed(prefix, a + b) == Prefixed(prefix, a) + Prefixed(prefix, b)
  {
    if a == [] {
      assert a + b == b;
    } else {
      assert (a + b)[1..] == a[1..] + b;
      PrefixedConcat(prefix, a[1..], b);
    }
  }

  lemma PrefixedSnoc(prefix: Bytes, ls: seq<Bytes>, i: nat)
    requires i < |ls|
    ensures Prefixed(prefix, ls[..i + 1]) == Prefixed(prefix, ls[..i]) + (prefix + ls[i] + [NEWLINE])
  {
    assert ls[..i + 1] == ls[..i] + [ls[i]];
    PrefixedConcat(prefix, ls[..i], [ls[i]]);
    assert Prefixed(prefix, [ls[i]]) == prefix + ls[i] + [NEWLINE];
  }

  // ---- Whole runs --------------------------------------------------------

  function Flatten(chunks: seq<Bytes>): Bytes {
    if chunks == [] then [] else Flatten(chunks[..|chunks| - 1]) + chunks[|chunks| - 1]
  }

  const START := State([], [], 0)

  function Run(prefix: Bytes, o: Outcomes, chunks: seq<Bytes>): State {
    if chunks == [] then START
    else After(prefix, o, Run(prefix, o, chunks[..|chunks| - 1]), chunks[|chunks| - 1])
  }

  // The lines the sink accepted in full during a run.
  function Delivered(prefix: Bytes, o: Outcomes, chunks: seq<Bytes>): seq<Bytes> {
    if chunks == [] then []
    else
      var before := chunks[..|chunks| - 1];
      Delivered(prefix, o, before) + LinesSent(o, Run(prefix, o, before), chunks[|chunks| - 1])
  }

  // Conservation for one write, failing or not: what it sends and what it keeps
  // is what it had and what it was given.
  lemma WriteConserves(prefix: Bytes, o: Outcomes, s: State, p: Bytes)
    ensures Join(LinesSent(o, s, p)) + After(prefix, o, s, p).buf == s.buf + p
    ensures forall i :: 0 <= i < |LinesSent(o, s, p)| ==> NewlineFree(LinesSent(o, s, p)[i])
    ensures Succeeds(o, s, p) ==> NewlineFree(After(prefix, o, s, p).buf)
  {
    hide Complete, Tail, Join, Prefixed, FirstNewline, Taken;
    var lines, k := Complete(s.buf + p), |LinesSent(o, s, p)|;
    SplitIsLossless(s.buf + p);
    PiecesAreNewlineFree(s.buf + p);
    assert lines == lines[..k] + lines[k..];
    JoinConcat(lines[..k], lines[k..]);
    if k == |lines| {
      assert lines[..k] == lines;
    } else {
      assert (Join(lines[..k]) + Join(lines[k..])) + Tail(s.buf + p) == Join(lines[..k]) + (Join(lines[k..]) + Tail(s.buf + p));
    }
  }

  // Over any chunks and any sink failures no byte is lost, duplicated or
  // reordered; and whenever the last write succeeded, exactly the complete lines
  // of the whole stream have been delivered and exactly its tail is held back.
  lemma {:induction false} NothingIsLost(prefix: Bytes, o: Outcomes, chunks: seq<Bytes>)
    ensures var ls, s := Delivered(prefix, o, chunks), Run(prefix, o, chunks);
            && Join(ls) + s.buf == Flatten(chunks)
            && (forall i :: 0 <= i < |ls| ==> NewlineFree(ls[i]))
            && (NewlineFree(s.buf) ==> ls == Complete(Flatten(chunks)) && s.buf == Tail(Flatten(chunks)))
    ensures chunks != [] && Succeeds(o, Run(prefix, o, chunks[..|chunks| - 1]), chunks[|chunks| - 1])
            ==> NewlineFree(Run(prefix, o, chunks).buf)
  {
    hide Complete, Tail, FirstNewline, After, LinesSent, Succeeds, NewlineFree;
    var ls, s := Delivered(prefix, o, chunks), Run(prefix, o, chunks);
    if chunks == [] {
      assert Join(ls) + s.buf == Flatten(chunks);
    } else {
      var before, p := chunks[..|chunks| - 1], chunks[|chunks| - 1];
      NothingIsLost(prefix, o, before);
      var mid := Run(prefix, o, before);
      WriteConserves(prefix, o, mid, p);
      var held, sent := Delivered(prefix, o, before), LinesSent(o, mid, p);
      JoinConcat(held, sent);
      assert (Join(held) + Join(sent)) + s.buf == Join(held) + (Join(sent) + s.buf);
      assert Join(held) + (mid.buf + p) == (Join(held) + mid.buf) + p;
    }
    if NewlineFree(s.buf) {
      SplitJoin(ls, s.buf);
    }
  }

  // On a sink that never fails every write succeeds and the output depends on
  // the stream alone, not on how it was cut into writes.
  lemma {:induction false} ChunkingDoesNotMatter(prefix: Bytes, o: Outcomes, chunks: seq<Bytes>)
    requires forall i :: o(i).Accepts?
    ensures var s := Run(prefix, o, chunks);
            && s.written == Prefixed(prefix, Complete(Flatten(chunks)))
            && s.buf == Tail(Flatten(chunks))
            && forall p :: Succeeds(o, s, p)
  {
    hide Complete, Tail, FirstNewline;
    NothingIsLost(prefix, o, chunks);
    WrittenOnGoodSink(prefix, o, chunks);
    if chunks == [] {
      assert NewlineFree(Run(prefix, o, chunks).buf);
    }
  }

  lemma {:induction false} WrittenOnGoodSink(prefix: Bytes, o: Outcomes, chunks: seq<Bytes>)
    requires forall i :: o(i).Accepts?
    ensures Run(prefix, o, chunks).written == Prefixed(prefix, Delivered(prefix, o, chunks))
    ensures forall s, p :: Succeeds(o, s, p)
  {
    hide Complete, Tail, FirstNewline, Prefixed;
    if chunks == [] {
      assert Prefixed(prefix, []) == [] by { PrefixedNothing(prefix); }
    } else {
      var before, p := chunks[..|chunks| - 1], chunks[|chunks| - 1];
      WrittenOnGoodSink(prefix, o, before);
      PrefixedConcat(prefix, Delivered(prefix, o, before), LinesSent(o, Run(prefix, o, before), p));
    }
  }

  lemma PrefixedNothing(prefix: Bytes)
    ensures Prefixed(prefix, []) == []
  {
  }

  // A write that failed has consumed its chunk although it reports 0: a caller
  // that offers the same chunk again, as the count invites it to, has the chunk
  // in the stream twice, and one that offers nothing has it once.
  lemma RetryAfterFailure(prefix: Bytes, o: Outcomes, chunks: seq<Bytes>, p: Bytes)
    requires !Succeeds(o, Run(prefix, o, chunks), p)
    requires Succeeds(o, Run(prefix, o, chunks + [p]), p) && Succeeds(o, Run(prefix, o, chunks + [p]), [])
    ensures Delivered(prefix, o, chunks + [p] + [p]) == Complete(Flatten(chunks) + p + p)
    ensures Delivered(prefix, o, chunks + [p] + [[]]) == Complete(Flatten(chunks) + p)
  {
    hide Complete, Tail, FirstNewline, After, LinesSent, Succeeds;
    var once := chunks + [p];
    assert once[..|chunks|] == chunks;
    assert (once + [p])[..|once|] == once && (once + [[]])[..|once|] == once;
    NothingIsLost(prefix, o, once + [p]);
    NothingIsLost(prefix, o, once + [[]]);
    assert Flatten(chunks) + p + [] == Flatten(chunks) + p;
  }
}
