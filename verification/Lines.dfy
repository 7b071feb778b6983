// Newline-terminated lines of a byte stream.  Both the replay log and the
// line-prefixing writer read a stream this way: complete lines first, and
// whatever follows the last newline is an unterminated tail.
module Lines {

  newtype byte = b: int | 0 <= b < 256

  type Bytes = seq<byte>

  const NEWLINE: byte := 0x0a

  predicate NewlineFree(s: Bytes) {
    forall i :: 0 <= i < |s| ==> s[i] != NEWLINE
  }

  // Position of the first newline, or -1 (Go's strings.IndexByte).
  function FirstNewline(s: Bytes): (i: int)
    ensures -1 <= i < |s|
    ensures i >= 0 ==> s[i] == NEWLINE && NewlineFree(s[..i])
    ensures i < 0 ==> NewlineFree(s)
  {
    if s == [] then -1
    else if s[0] == NEWLINE then 0
    else
      var rest := FirstNewline(s[1..]);
      assert forall j :: 0 < j < |s| ==> s[j] == s[1..][j - 1];
      if rest < 0 then -1 else assert s[..rest + 1] == [s[0]] + s[1..][..rest]; rest + 1
  }

  // The complete lines of a stream, terminators removed.
  function Complete(s: Bytes): seq<Bytes> {
    var i := FirstNewline(s);
    if i < 0 then [] else [s[..i]] + Complete(s[i + 1..])
  }

  // The bytes after the last newline.
  function Tail(s: Bytes): Bytes {
    var i := FirstNewline(s);
    if i < 0 then s else Tail(s[i + 1..])
  }

  // The stream that consists of the given lines, each terminated.
  function Join(ls: seq<Bytes>): Bytes {
    if ls == [] then [] else ls[0] + [NEWLINE] + Join(ls[1..])
  }

  lemma FirstNewlineUnique(s: Bytes, i: nat)
    requires i < |s| && s[i] == NEWLINE && NewlineFree(s[..i])
    ensures FirstNewline(s) == i
  {
  }

  lemma UnfoldSplit(s: Bytes)
    ensures var i := FirstNewline(s);
            && (i < 0 ==> Complete(s) == [] && Tail(s) == s)
            && (i >= 0 ==> Complete(s) == [s[..i]] + Complete(s[i + 1..]) && Tail(s) == Tail(s[i + 1..]))
  {
  }

  lemma NewlineOfConcat(a: Bytes, b: Bytes)
    requires FirstNewline(a) >= 0
    ensures var i := FirstNewline(a);
            FirstNewline(a + b) == i && (a + b)[..i] == a[..i] && (a + b)[i + 1..] == a[i + 1..] + b
  {
    var i := FirstNewline(a);
    assert (a + b)[..i] == a[..i];
    FirstNewlineUnique(a + b, i);
  }

  // Reading a stream in two pieces: the unterminated tail of the first piece is
  // carried over to the second, and nothing else is.
  lemma {:induction false} SplitConcat(a: Bytes, b: Bytes)
    ensures Complete(a + b) == Complete(a) + Complete(Tail(a) + b)
    ensures Tail(a + b) == Tail(Tail(a) + b)
    decreases |a|
  {
    hide Complete, Tail, FirstNewline;
    var i := FirstNewline(a);
    UnfoldSplit(a);
    if i < 0 {
      assert [] + Complete(a + b) == Complete(a + b);
    } else {
      var rest := a[i + 1..];
      NewlineOfConcat(a, b);
      UnfoldSplit(a + b);
      SplitConcat(rest, b);
      calc {
        Complete(a + b);
        [a[..i]] + (Complete(rest) + Complete(Tail(rest) + b));
        ([a[..i]] + Complete(rest)) + Complete(Tail(rest) + b);
      }
    }
  }

  // A stream is exactly its lines followed by its tail ...
  lemma {:induction false} SplitIsLossless(s: Bytes)
    ensures Join(Complete(s)) + Tail(s) == s
    decreases |s|
  {
    var i := FirstNewline(s);
    if i >= 0 {
      var rest := s[i + 1..];
      SplitIsLossless(rest);
      JoinCons(s[..i], Complete(rest));
      Regroup(s[..i], Join(Complete(rest)), Tail(rest));
      assert s == s[..i] + [NEWLINE] + rest;
    } else {
      assert Join([]) + s == s;
    }
  }

  lemma JoinCons(line: Bytes, ls: seq<Bytes>)
    ensures Join([line] + ls) == line + [NEWLINE] + Join(ls)
  {
    assert ([line] + ls)[1..] == ls;
  }

  lemma Regroup(line: Bytes, middle: Bytes, tail: Bytes)
    ensures (line + [NEWLINE] + middle) + tail == line + [NEWLINE] + (middle + tail)
  {
  }

  // ... neither lines nor tail hold a newline ...
  lemma {:induction false} PiecesAreNewlineFree(s: Bytes)
    ensures NewlineFree(Tail(s))
    ensures forall k :: 0 <= k < |Complete(s)| ==> NewlineFree(Complete(s)[k])
    decreases |s|
  {
    var i := FirstNewline(s);
    if i >= 0 {
      PiecesAreNewlineFree(s[i + 1..]);
    }
  }

  // ... and that decomposition is the only one.
  lemma {:induction false} SplitJoin(ls: seq<Bytes>, tail: Bytes)
    requires forall k :: 0 <= k < |ls| ==> NewlineFree(ls[k])
    requires NewlineFree(tail)
    ensures Complete(Join(ls) + tail) == ls && Tail(Join(ls) + tail) == tail
  {
    var s := Join(ls) + tail;
    if ls == [] {
      assert s == tail;
    } else {
      var head := ls[0];
      assert s == head + [NEWLINE] + (Join(ls[1..]) + tail);
      assert s[..|head|] == head && s[|head|] == NEWLINE;
      FirstNewlineUnique(s, |head|);
      assert s[|head| + 1..] == Join(ls[1..]) + tail;
      SplitJoin(ls[1..], tail);
    }
  }

  // Appending to a stream that ends in a newline.
  lemma AppendComplete(a: Bytes, b: Bytes)
    requires Tail(a) == []
    ensures Complete(a + b) == Complete(a) + Complete(b) && Tail(a + b) == Tail(b)
  {
    SplitConcat(a, b);
    assert Tail(a) + b == b;
  }

  lemma OneLine(line: Bytes)
    requires NewlineFree(line)
    ensures Complete(line + [NEWLINE]) == [line] && Tail(line + [NEWLINE]) == []
  {
    assert Join([line]) == line + [NEWLINE];
    assert Join([line]) + [] == line + [NEWLINE];
    SplitJoin([line], []);
  }

  // A proper prefix of a line's bytes is all tail.
  lemma TornLine(line: Bytes, k: nat)
    requires NewlineFree(line) && k <= |line|
    ensures Complete((line + [NEWLINE])[..k]) == [] && Tail((line + [NEWLINE])[..k]) == line[..k]
  {
    var s := (line + [NEWLINE])[..k];
    assert s == line[..k];
    assert Join([]) + s == s;
    SplitJoin([], s);
  }

  lemma JoinConcat(a: seq<Bytes>, b: seq<Bytes>)
    ensures Join(a + b) == Join(a) + Join(b)
  {
    if a == [] {
      assert a + b == b;
    } else {
      assert (a + b)[1..] == a[1..] + b;
      JoinConcat(a[1..], b);
    }
  }
}
