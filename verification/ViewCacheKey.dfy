// The key of the verifier's view cache: source ID, NUL, recipe encoding.  It is
// unambiguous for every source ID, NULs included, because no recipe encoding
// ends in another one: the end of the encoding's header and the beginning of the
// profile digest behind it make a mark that occurs in it nowhere else.
module ViewCacheKey {
  import opened Lines
  import opened RecipeEncoding

  function CacheKey(sourceId: Bytes, recipeBytes: Bytes): Bytes { sourceId + [0] + recipeBytes }

  // "v1", the eight length bytes of the digest, "sha".
  const MARK: Bytes := [0x76, 0x31, 0, 0, 0, 0, 0, 0, 0, 0x47, 0x73, 0x68, 0x61]
  const MARK_AT := 44

  // ---- Searching for the mark -------------------------------------------
  // The states of a scan are the lengths of the mark's prefix read last; the
  // mark's first byte does not occur in it again.

  function Next(q: nat, b: byte): nat {
    if q < |MARK| && b == MARK[q] then q + 1 else if b == 0x76 then 1 else 0
  }

  function End(q: nat, s: Bytes): nat
    decreases |s|
  {
    if s == [] then q else End(Next(q, s[0]), s[1..])
  }

  // The scan of s from q never completes the mark.
  predicate Quiet(q: nat, s: Bytes)
    decreases |s|
  {
    q < |MARK| && (s == [] || Quiet(Next(q, s[0]), s[1..]))
  }

  ghost predicate Passes(q: nat, s: Bytes, most: nat) { Quiet(q, s) && End(q, s) <= most }

  lemma {:induction false} ScanConcat(q: nat, a: Bytes, b: Bytes)
    ensures End(q, a + b) == End(End(q, a), b)
    ensures Quiet(q, a + b) <==> Quiet(q, a) && Quiet(End(q, a), b)
    decreases |a|
  {
    if a == [] {
      assert a + b == b;
    } else {
      assert (a + b)[1..] == a[1..] + b;
      ScanConcat(Next(q, a[0]), a[1..], b);
    }
  }

  lemma ScanOne(q: nat, b: byte, s: Bytes)
    ensures End(q, [b] + s) == End(Next(q, b), s)
    ensures Quiet(q, [b] + s) <==> q < |MARK| && Quiet(Next(q, b), s)
  {
    assert ([b] + s)[1..] == s;
  }

  // A quiet scan has met no mark.
  lemma {:induction false} MarkIsHeard(q: nat, s: Bytes, t: nat)
    requires t + |MARK| <= |s| && s[t..t + |MARK|] == MARK
    ensures !Quiet(q, s)
    decreases t
  {
    if t > 0 {
      assert s[1..][t - 1..t - 1 + |MARK|] == s[t..t + |MARK|];
      MarkIsHeard(Next(q, s[0]), s[1..], t - 1);
    } else if q < |MARK| {
      assert forall k :: 0 <= k < |MARK| ==> s[k] == s[0..|MARK|][k];
      assert Next(q, s[0]) == 1;
      assert forall k :: 0 <= k < |s| - 1 ==> s[1..][k] == s[k + 1];
      RestIsHeard(1, s[1..]);
    }
  }

  lemma {:induction false} RestIsHeard(q: nat, s: Bytes)
    requires 1 <= q <= |MARK| && |s| >= |MARK| - q && forall k :: 0 <= k < |MARK| - q ==> s[k] == MARK[q + k]
    ensures !Quiet(q, s)
    decreases |MARK| - q
  {
    if q < |MARK| {
      assert s[0] == MARK[q + 0];
      assert forall k :: 0 <= k < |s| - 1 ==> s[1..][k] == s[k + 1];
      RestIsHeard(q + 1, s[1..]);
    }
  }

  // ---- Pieces that stay quiet -------------------------------------------

  lemma {:induction false} ShortPasses(q: nat, s: Bytes)
    requires q + |s| < |MARK|
    ensures Passes(q, s, q + |s|)
    decreases |s|
  {
    if s != [] {
      ShortPasses(Next(q, s[0]), s[1..]);
    }
  }

  predicate WithoutV(s: Bytes) { forall i :: 0 <= i < |s| ==> s[i] != 0x76 }

  lemma {:induction false} WithoutVPasses(s: Bytes)
    requires WithoutV(s)
    ensures Passes(0, s, 0)
    decreases |s|
  {
    if s != [] {
      WithoutVPasses(s[1..]);
    }
  }

  predicate NulFree(s: Bytes) { forall i :: 0 <= i < |s| ==> s[i] != 0 }

  lemma {:induction false} TextPasses(q: nat, s: Bytes)
    requires q <= 8 && NulFree(s) && (s == [] ==> q <= 2)
    ensures Passes(q, s, 2)
    decreases |s|
  {
    if s != [] {
      assert MARK[q] == 0 || q <= 1;
      TextPasses(Next(q, s[0]), s[1..]);
    }
  }

  // The eight bytes of a small length other than the digest's.
  lemma SmallLength(n: nat)
    requires n < 256
    ensures BigEndian(n, 8) == [0, 0, 0, 0, 0, 0, 0] + [n as byte]
  {
    Zeros(7);
    assert BigEndian(n, 8) == BigEndian(0, 7) + [n as byte];
  }

  lemma Zeros(k: nat)
    ensures BigEndian(0, k) == seq(k, i => 0)
  {
  }

  lemma SmallLengthPasses(q: nat, n: nat)
    requires q < |MARK| && n < 256 && n != 0x76 && n != 0x47
    ensures Passes(q, BigEndian(n, 8), 0)
  {
    hide Quiet, End;
    SmallLength(n);
    var z: byte := 0;
    var q1 := Next(q, z);
    var q2 := Next(q1, z);
    var q3 := Next(q2, z);
    var q4 := Next(q3, z);
    var q5 := Next(q4, z);
    var q6 := Next(q5, z);
    var q7 := Next(q6, z);
    ScanSeven(q, q1, q2, q3, q4, q5, q6, q7);
    ScanConcat(q, [z, z, z, z, z, z, z], [n as byte]);
    ScanOne(q7, n as byte, []);
    ScanNothing(Next(q7, n as byte));
    assert q7 == 0 || q7 == 9;
    assert [n as byte] + [] == [n as byte];
  }

  lemma ScanNothing(q: nat)
    ensures End(q, []) == q && (Quiet(q, []) <==> q < |MARK|)
  {
  }

  lemma ScanSeven(q: nat, q1: nat, q2: nat, q3: nat, q4: nat, q5: nat, q6: nat, q7: nat)
    requires q < |MARK| && q1 == Next(q, 0) && q2 == Next(q1, 0) && q3 == Next(q2, 0) && q4 == Next(q3, 0)
    requires q5 == Next(q4, 0) && q6 == Next(q5, 0) && q7 == Next(q6, 0)
    ensures Quiet(q, [0, 0, 0, 0, 0, 0, 0]) && End(q, [0, 0, 0, 0, 0, 0, 0]) == q7
  {
    hide Quiet, End;
    var z: byte := 0;
    ScanOne(q, z, [z, z, z, z, z, z]);
    ScanOne(q1, z, [z, z, z, z, z]);
    ScanOne(q2, z, [z, z, z, z]);
    ScanOne(q3, z, [z, z, z]);
    ScanOne(q4, z, [z, z]);
    ScanOne(q5, z, [z]);
    ScanOne(q6, z, []);
    ScanNothing(q7);
    assert [z] + [z, z, z, z, z, z] == [z, z, z, z, z, z, z] && [z] + [z, z, z, z, z] == [z, z, z, z, z, z];
    assert [z] + [z, z, z, z] == [z, z, z, z, z] && [z] + [z, z, z] == [z, z, z, z] && [z] + [z, z] == [z, z, z];
    assert [z] + [z] == [z, z] && [z] + [] == [z];
  }

  // ---- Frames ------------------------------------------------------------

  lemma ShortFramePasses(q: nat, v: Bytes)
    requires q < |MARK| && |v| <= 4
    ensures Passes(q, Frame(v), |v|)
  {
    hide Quiet, End, BigEndian;
    SmallLengthPasses(q, |v|);
    ShortPasses(0, v);
    ScanConcat(q, BigEndian(|v|, 8), v);
  }

  lemma ByteFramePasses(q: nat, b: byte)
    requires q < |MARK| && b != 0x76
    ensures Passes(q, Frame([b]), 0)
  {
    hide Quiet, End, BigEndian;
    SmallLengthPasses(q, 1);
    WithoutVPasses([b]);
    ScanConcat(q, BigEndian(1, 8), [b]);
  }

  // A text of any length, behind a byte that leaves nothing of the mark.
  lemma TextFramePasses(v: Bytes)
    requires NulFree(v)
    ensures Passes(0, Frame(v), 2)
  {
    hide Quiet, End, BigEndian;
    ScanConcat(0, BigEndian(|v|, 8), v);
    if v == [] {
      SmallLengthPasses(0, 0);
    } else {
      ShortPasses(0, BigEndian(|v|, 8));
    }
    TextPasses(End(0, BigEndian(|v|, 8)), v);
  }

  lemma FirstPasses(q: nat, mid: nat, v: Bytes, vs: seq<Bytes>, most: nat)
    requires Passes(q, Frame(v), mid) && forall m :: 0 <= m <= mid ==> Passes(m, Frames(vs), most)
    ensures Passes(q, Frames([v] + vs), most)
  {
    hide Quiet, End, Frames, Frame;
    assert ([v] + vs)[1..] == vs;
    UnfoldFrames([v] + vs);
    ScanConcat(q, Frame(v), Frames(vs));
    assert Passes(End(q, Frame(v)), Frames(vs), most);
  }

  // ---- Operations --------------------------------------------------------

  lemma TextsAreNulFree(op: Operation)
    requires ValidOperation(op)
    ensures NulFree(op.selector) && NulFree(op.profile) && NulFree(op.alphabet)
  {
    KnownAlphabets(op);
  }

  lemma KnownAlphabets(op: Operation)
    requires ValidShape(op)
    ensures NulFree(op.alphabet)
  {
    hide NoControl, ValidIndices, ValidComponent, Ascii, NulFree;
    NamesAreNulFree();
    NothingIsNulFree();
    if !op.kind.Base64DecodeLiberal? && !op.kind.EncodedTokenNormalize? {
      assert op.alphabet == [];
    }
  }

  lemma NothingIsNulFree()
    ensures NulFree([])
  {
  }

  lemma NamesAreNulFree()
    ensures NulFree(Ascii("standard")) && NulFree(Ascii("url")) && NulFree(Ascii("hex")) && NulFree(Ascii("base32"))
    ensures NulFree(Ascii("base64_standard")) && NulFree(Ascii("base64_url"))
  {
    hide Ascii, NulFree, Within;
    NamesWithin();
    WithinIsNulFree("standard");
    WithinIsNulFree("url");
    WithinIsNulFree("hex");
    WithinIsNulFree("base32");
    WithinIsNulFree("base64_standard");
    WithinIsNulFree("base64_url");
  }

  lemma NamesWithin()
    ensures Within("standard", '0', 'z') && Within("url", '0', 'z') && Within("hex", '0', 'z') && Within("base32", '0', 'z')
    ensures Within("base64_standard", '0', 'z') && Within("base64_url", '0', 'z')
  {
  }

  lemma NothingPasses(q: nat, most: nat)
    requires q <= most < |MARK|
    ensures Passes(q, Frames([]), most)
  {
  }

  lemma TailPasses(op: Operation, q: nat)
    requires ValidOperation(op) && q == 0
    ensures Passes(q, Frames(TailParts(op)), 4)
  {
    hide Quiet, End, Frames, Frame, BigEndian, ValidShape, NoControl, Passes, KindByte;
    if KindByte(op.kind) >= 12 {
      TextsAreNulFree(op);
      ShapeBounds(op);
      var a, i, w := op.alphabet, op.indices, BigEndian(op.minimumLength, 4);
      forall m | 0 <= m <= 4 ensures Passes(m, Frames([w]), 4) {
        forall k | 0 <= k <= 4 ensures Passes(k, Frames([]), 4) { NothingPasses(k, 4); }
        ShortFramePasses(m, w);
        FirstPasses(m, 4, w, [], 4);
        assert [w] + [] == [w];
      }
      forall m | 0 <= m <= 2 ensures Passes(m, Frames([i, w]), 4) {
        ShortFramePasses(m, i);
        Weaken(m, Frame(i), |i|, 4);
        FirstPasses(m, 4, i, [w], 4);
        assert [i] + [w] == [i, w];
      }
      TextFramePasses(a);
      FirstPasses(0, 2, a, [i, w], 4);
      assert [a] + [i, w] == [a, i, w];
    } else {
      NothingPasses(0, 4);
    }
  }

  lemma Weaken(q: nat, s: Bytes, least: nat, most: nat)
    requires Passes(q, s, least) && least <= most
    ensures Passes(q, s, most)
  {
  }

  // From the component byte's frame on: selector, occurrence, passes, profile,
  // padding, tail.
  lemma PartsPass(op: Operation, q: nat)
    requires ValidOperation(op) && q < |MARK|
    ensures Passes(q, OperationBytes(op), 4)
  {
    hide Quiet, End, Frames, Frame, BigEndian, ValidShape, NoControl, Passes, KindByte, ComponentByte, TailParts;
    TextsAreNulFree(op);
    ShapeBounds(op);
    KnownNames(op);
    var b, t := BaseParts(op), TailParts(op);
    TailPasses(op, 0);
    forall m | 0 <= m <= 2 ensures Passes(m, Frames([b[6]] + t), 4) {
      ByteFramePasses(m, if op.decodePadding then 1 else 0);
      FirstPasses(m, 0, b[6], t, 4);
    }
    TextFramePasses(b[5]);
    FirstPasses(0, 2, b[5], [b[6]] + t, 4);
    forall m | 0 <= m <= 4 ensures Passes(m, Frames([b[4]] + ([b[5]] + ([b[6]] + t))), 4) {
      ByteFramePasses(m, op.passes);
      FirstPasses(m, 0, b[4], [b[5]] + ([b[6]] + t), 4);
    }
    HeadPasses(op, q, [b[4]] + ([b[5]] + ([b[6]] + t)));
    assert b + t == [b[0]] + ([b[1]] + ([b[2]] + ([b[3]] + ([b[4]] + ([b[5]] + ([b[6]] + t))))));
  }

  lemma HeadPasses(op: Operation, q: nat, rest: seq<Bytes>)
    requires ValidOperation(op) && q < |MARK| && forall m :: 0 <= m <= 4 ==> Passes(m, Frames(rest), 4)
    ensures var b := BaseParts(op);
            Passes(q, Frames([b[0]] + ([b[1]] + ([b[2]] + ([b[3]] + rest)))), 4)
  {
    hide Quiet, End, Frames, Frame, BigEndian, ValidShape, NoControl, Passes, KindByte, ComponentByte;
    TextsAreNulFree(op);
    KnownNames(op);
    var b := BaseParts(op);
    forall m | 0 <= m <= 2 ensures Passes(m, Frames([b[3]] + rest), 4) {
      ShortFramePasses(m, b[3]);
      FirstPasses(m, 4, b[3], rest, 4);
    }
    TextFramePasses(b[2]);
    FirstPasses(0, 2, b[2], [b[3]] + rest, 4);
    ByteFramePasses(0, ComponentByte(op.component));
    FirstPasses(0, 0, b[1], [b[2]] + ([b[3]] + rest), 4);
    ByteFramePasses(q, KindByte(op.kind));
    FirstPasses(q, 0, b[0], [b[1]] + ([b[2]] + ([b[3]] + rest)), 4);
  }

  // Whatever its length bytes, an operation's frame is quiet: its first part
  // starts with zeros.
  lemma OperationPasses(op: Operation, q: nat)
    requires ValidOperation(op) && q <= 4
    ensures Passes(q, Frame(OperationBytes(op)), 4)
  {
    hide Quiet, End, BigEndian, OperationBytes, ValidOperation;
    var v := OperationBytes(op);
    ShortPasses(q, BigEndian(|v|, 8));
    PartsPass(op, End(q, BigEndian(|v|, 8)));
    ScanConcat(q, BigEndian(|v|, 8), v);
  }

  lemma {:induction false} OperationsPass(ops: seq<Operation>, q: nat)
    requires q <= 4 && forall i :: 0 <= i < |ops| ==> ValidOperation(ops[i])
    ensures Passes(q, Frames(OperationList(ops)), 4)
    decreases |ops|
  {
    hide Quiet, End, OperationBytes, ValidOperation, Frames, Frame, Passes;
    if ops == [] {
      NothingPasses(q, 4);
    } else {
      OperationPasses(ops[0], q);
      forall m | 0 <= m <= 4 ensures Passes(m, Frames(OperationList(ops[1..])), 4) {
        OperationsPass(ops[1..], m);
      }
      FirstPasses(q, 4, OperationBytes(ops[0]), OperationList(ops[1..]), 4);
    }
  }

  // ---- The whole encoding -----------------------------------------------

  // The encoding as its header frame, the other two fixed frames, and the rest.
  lemma EncodingLayout(r: Recipe)
    requires ValidRecipe(r)
    ensures var fixed := Frame(DIGEST) + Frame(BigEndian(|r.operations|, 8));
            Encoding(r) == Frame(HEADER) + (fixed + Frames(OperationList(r.operations)))
  {
    hide Frames, Frame, BigEndian, ValidOperation, OperationList;
    var ops := OperationList(r.operations);
    var a := [HEADER, DIGEST, BigEndian(|r.operations|, 8)];
    FramesConcat(a, ops);
    ThreeFrames(HEADER, DIGEST, BigEndian(|r.operations|, 8));
    assert a + [] == a;
    var x, y, z := Frame(HEADER), Frame(DIGEST), Frame(BigEndian(|r.operations|, 8));
    assert (x + y + z) + Frames(ops) == x + ((y + z) + Frames(ops));
  }

  lemma DigestWithoutV()
    ensures |DIGEST| == 71 && WithoutV(DIGEST)
  {
    hide Ascii, WithoutV;
    HexWithoutV();
    var a, b, c, d, e := Ascii("sha256:"), Ascii("3de14968449593ca"), Ascii("e58da869cfc97855"), Ascii("cb098e491494390a"), Ascii("12ba742cb0b70f94");
    ConcatWithoutV(a, b);
    ConcatWithoutV(a + b, c);
    ConcatWithoutV(a + b + c, d);
    ConcatWithoutV(a + b + c + d, e);
  }

  lemma HexWithoutV()
    ensures WithoutV(Ascii("sha256:")) && WithoutV(Ascii("3de14968449593ca")) && WithoutV(Ascii("e58da869cfc97855"))
    ensures WithoutV(Ascii("cb098e491494390a")) && WithoutV(Ascii("12ba742cb0b70f94"))
  {
    hide Ascii, WithoutV, Within;
    HexWithin();
    WithinIsWithoutV("sha256:");
    WithinIsWithoutV("3de14968449593ca");
    WithinIsWithoutV("e58da869cfc97855");
    WithinIsWithoutV("cb098e491494390a");
    WithinIsWithoutV("12ba742cb0b70f94");
  }

  predicate Within(s: string, lo: char, hi: char) { forall i :: 0 <= i < |s| ==> lo <= s[i] <= hi }

  lemma HexWithin()
    ensures Within("sha256:", '0', 's') && Within("3de14968449593ca", '0', 's') && Within("e58da869cfc97855", '0', 's')
    ensures Within("cb098e491494390a", '0', 's') && Within("12ba742cb0b70f94", '0', 's')
  {
  }

  lemma WithinIsWithoutV(s: string)
    requires Within(s, '0', 's')
    ensures WithoutV(Ascii(s))
  {
  }

  lemma WithinIsNulFree(s: string)
    requires Within(s, '0', 'z')
    ensures NulFree(Ascii(s))
  {
  }

  lemma ConcatWithoutV(a: Bytes, b: Bytes)
    requires WithoutV(a) && WithoutV(b)
    ensures WithoutV(a + b)
  {
  }

  lemma DigestStart()
    ensures |DIGEST| >= 3 && DIGEST[0] == 0x73 && DIGEST[1] == 0x68 && DIGEST[2] == 0x61
  {
    hide Ascii;
    var a := Ascii("sha256:");
    assert DIGEST[..7] == a;
    assert a[0] == 0x73 && a[1] == 0x68 && a[2] == 0x61;
    assert DIGEST[0] == DIGEST[..7][0] && DIGEST[1] == DIGEST[..7][1] && DIGEST[2] == DIGEST[..7][2];
  }

  lemma HeaderEnd()
    ensures |HEADER| == 38 && HEADER[36] == 0x76 && HEADER[37] == 0x31
  {
  }

  // The mark is there ...
  lemma MarkInHeader(r: Recipe)
    requires ValidRecipe(r)
    ensures |Encoding(r)| >= MARK_AT + |MARK| && Encoding(r)[MARK_AT..MARK_AT + |MARK|] == MARK
  {
    hide Frames, BigEndian, ValidOperation, OperationList, ValidRecipe, Encoding, Frame;
    EncodingLayout(r);
    HeaderFrame();
    var rest := Frame(BigEndian(|r.operations|, 8)) + Frames(OperationList(r.operations));
    var x := Encoding(r);
    assert x == Frame(HEADER) + (Frame(DIGEST) + rest);
    DigestFrame();
    assert x[44..46] == Frame(HEADER)[44..] && x[46..57] == Frame(DIGEST)[..11];
    assert x[44..57] == x[44..46] + x[46..57];
  }

  lemma DigestFrame()
    ensures |Frame(DIGEST)| == 79 && Frame(DIGEST)[..11] == [0, 0, 0, 0, 0, 0, 0, 0x47, 0x73, 0x68, 0x61]
  {
    hide BigEndian, Ascii, WithoutV;
    DigestWithoutV();
    DigestStart();
    SmallLength(71);
    assert Frame(DIGEST)[..11] == BigEndian(71, 8) + DIGEST[..3];
    assert DIGEST[..3] == [0x73, 0x68, 0x61];
  }

  // ... and nowhere behind it.
  lemma MarkOnlyInHeader(r: Recipe, t: nat)
    requires ValidRecipe(r) && MARK_AT < t && t + |MARK| <= |Encoding(r)|
    ensures Encoding(r)[t..t + |MARK|] != MARK
  {
    hide Frames, BigEndian, ValidOperation, OperationList, Encoding, Quiet, End, Frame;
    var n := |r.operations|;
    var ops := Frames(OperationList(r.operations));
    var fixed := Frame(DIGEST) + Frame(BigEndian(n, 8));
    var x := Encoding(r);
    EncodingLayout(r);
    HeaderEnd();
    FixedPasses(n);
    OperationsPass(r.operations, 0);
    ScanConcat(0, [HEADER[37]] + fixed, ops);
    HeaderFrame();
    var s := ([HEADER[37]] + fixed) + ops;
    assert x[45..] == s;
    if x[t..t + |MARK|] == MARK {
      assert s[t - 45..t - 45 + |MARK|] == x[t..t + |MARK|];
      MarkIsHeard(0, s, t - 45);
    }
  }

  lemma HeaderFrame()
    ensures |Frame(HEADER)| == 46 && Frame(HEADER)[45..] == [HEADER[37]] && Frame(HEADER)[44..] == [0x76, 0x31]
  {
    hide BigEndian, Ascii;
    HeaderEnd();
  }

  lemma FixedPasses(n: nat)
    requires n <= MAX_OPERATIONS
    ensures Passes(0, [HEADER[37]] + (Frame(DIGEST) + Frame(BigEndian(n, 8))), 0)
  {
    hide Quiet, End, BigEndian, Ascii, WithoutV;
    HeaderEnd();
    DigestWithoutV();
    LengthWithoutV(71);
    LengthWithoutV(8);
    LengthWithoutV(n);
    ConcatWithoutV(BigEndian(71, 8), DIGEST);
    ConcatWithoutV(BigEndian(8, 8), BigEndian(n, 8));
    ConcatWithoutV(Frame(DIGEST), Frame(BigEndian(n, 8)));
    assert WithoutV([HEADER[37]]) by { OneByte(HEADER[37]); }
    ConcatWithoutV([HEADER[37]], Frame(DIGEST) + Frame(BigEndian(n, 8)));
    WithoutVPasses([HEADER[37]] + (Frame(DIGEST) + Frame(BigEndian(n, 8))));
  }

  lemma OneByte(b: byte)
    requires b != 0x76
    ensures WithoutV([b])
  {
  }

  lemma LengthWithoutV(n: nat)
    requires n < 0x76
    ensures WithoutV(BigEndian(n, 8))
  {
    hide BigEndian;
    SmallLength(n);
  }

  // No encoding ends in another one, or in itself but for all of it.
  lemma NoEncodingEndsInAnother(r: Recipe, s: Recipe, k: nat)
    requires ValidRecipe(r) && ValidRecipe(s) && k <= |Encoding(r)| && Encoding(r)[k..] == Encoding(s)
    ensures k == 0 && r == s
  {
    hide Encoding, ValidRecipe;
    var x, y := Encoding(r), Encoding(s);
    MarkInHeader(s);
    if k > 0 {
      assert x[MARK_AT + k..MARK_AT + k + |MARK|] == y[MARK_AT..MARK_AT + |MARK|];
      MarkOnlyInHeader(r, MARK_AT + k);
    } else {
      assert x[0..] == x;
      EncodingInjective(r, s);
    }
  }

  // Equal keys come from equal source IDs and equal recipes.
  lemma CacheKeyIsInjective(a: Bytes, r: Recipe, b: Bytes, s: Recipe)
    requires ValidRecipe(r) && ValidRecipe(s) && CacheKey(a, Encoding(r)) == CacheKey(b, Encoding(s))
    ensures a == b && r == s
  {
    hide Encoding, ValidRecipe;
    var key, x, y := CacheKey(a, Encoding(r)), Encoding(r), Encoding(s);
    assert key[|a| + 1..] == x && key[|b| + 1..] == y;
    if |a| <= |b| {
      assert x[|b| - |a|..] == y;
      NoEncodingEndsInAnother(r, s, |b| - |a|);
    } else {
      assert y[|a| - |b|..] == x;
      NoEncodingEndsInAnother(s, r, |a| - |b|);
    }
    assert key[..|a|] == a && key[..|b|] == b;
  }
}
