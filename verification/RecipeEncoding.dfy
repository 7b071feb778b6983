// The typed transform recipes of the evidence-provenance proofs and their
// canonical length-framed encoding.
module RecipeEncoding {
  import opened Optional
  import opened Lines

  type U32 = n: nat | n < 0x1_0000_0000

  // Go's len is a non-negative 64-bit int.
  const LENGTH_LIMIT: nat := 0x8000_0000_0000_0000

  datatype Kind =
    | Identity | UrlComponent | PercentDecode | DlpNormalize | Lowercase | InvisibleStrip | HexDecode | Base32Decode
    | Base64Decode | Leetspeak | VowelFold | QueryUnescape | InvisibleSpace | MatchingNormalize | HexDecodeLiberal
    | Base32DecodeLiberal | Base64DecodeLiberal | EncodedTokenNormalize | TextSegment | HtmlEntityDecode
    | WhitespaceCompact | UrlNoiseStrip | OrderedQueryConcat | QuerySubsequence | HostnameDotRemove | EncodedRun
    | CanaryCanonicalize | UnknownKind(name: string)

  datatype Component = NoComponent | Url | Hostname | Path | QueryKey | QueryValue | RawQuery | UnknownComponent(name: string)

  // Strings are their UTF-8 bytes.
  datatype Operation = Operation(
    kind: Kind, component: Component, selector: Bytes, occurrence: U32, passes: byte, profile: Bytes,
    decodePadding: bool, alphabet: Bytes, indices: Bytes, minimumLength: U32)

  datatype Recipe = Recipe(digest: Bytes, operations: seq<Operation>)

  // ---- Validation --------------------------------------------------------

  function Ascii(s: string): (r: Bytes)
    ensures |r| == |s| && forall i :: 0 <= i < |s| ==> r[i] as int == s[i] as int % 256
  {
    seq(|s|, i requires 0 <= i < |s| => (s[i] as int % 256) as byte)
  }

  // The one known transform profile.
  const DIGEST: Bytes :=
    Ascii("sha256:") + Ascii("3de14968449593ca") + Ascii("e58da869cfc97855") + Ascii("cb098e491494390a") + Ascii("12ba742cb0b70f94")
  const DLP_PROFILE: Bytes := Ascii("pipelock-dlp-v1")
  const MATCHING_PROFILE: Bytes := Ascii("pipelock-matching-v1")
  const MAX_OPERATIONS := 32
  const MAX_PASSES: byte := 4
  const MAX_QUERY_VALUES: byte := 20

  // No Unicode control character: C0, DEL, or C1 (which UTF-8 writes C2 80..9F).
  predicate NoControl(s: Bytes) {
    && (forall i :: 0 <= i < |s| ==> 0x20 <= s[i] && s[i] != 0x7f)
    && (forall i :: 0 <= i < |s| - 1 ==> !(s[i] == 0xc2 && 0x80 <= s[i + 1] <= 0x9f))
  }

  // noParametersForValidation
  predicate Bare(op: Operation) {
    op == Operation(op.kind, NoComponent, [], 0, 0, [], false, [], [], 0)
  }

  predicate ValidComponent(op: Operation) {
    match op.component
    case Url => op.selector == [] && op.occurrence == 0
    case Hostname => op.selector == [] && op.occurrence == 0
    case Path => op.selector == [] && op.occurrence == 0
    case RawQuery => op.selector == [] && op.occurrence == 0
    case QueryKey => op.selector != []
    case QueryValue => op.selector != []
    case _ => false
  }

  predicate ValidIndices(s: Bytes) {
    && 2 <= |s| <= 4
    && (forall i :: 0 <= i < |s| ==> s[i] < MAX_QUERY_VALUES)
    && (forall i :: 0 < i < |s| ==> s[i - 1] < s[i])
  }

  // The parameter shape each kind demands.
  predicate ValidShape(op: Operation) {
    match op.kind
    case UrlComponent => ValidComponent(op) && Bare(op.(component := NoComponent, selector := [], occurrence := 0))
    case PercentDecode => 0 < op.passes <= MAX_PASSES && Bare(op.(passes := 0))
    case DlpNormalize => op.profile == DLP_PROFILE && Bare(op.(profile := []))
    case MatchingNormalize => op.profile == MATCHING_PROFILE && Bare(op.(profile := []))
    case Base32Decode => Bare(op.(decodePadding := false))
    case Base64Decode => Bare(op.(decodePadding := false))
    case Base32DecodeLiberal => Bare(op.(decodePadding := false))
    case Base64DecodeLiberal =>
      (op.alphabet == Ascii("standard") || op.alphabet == Ascii("url")) && Bare(op.(alphabet := [], decodePadding := false))
    case EncodedTokenNormalize =>
      && (|| op.alphabet == Ascii("hex") || op.alphabet == Ascii("base32")
          || op.alphabet == Ascii("base64_standard") || op.alphabet == Ascii("base64_url"))
      && Bare(op.(alphabet := []))
    case TextSegment => Bare(op.(occurrence := 0))
    case QuerySubsequence => ValidIndices(op.indices) && Bare(op.(indices := []))
    case EncodedRun => op.minimumLength > 0 && Bare(op.(occurrence := 0, minimumLength := 0))
    case UnknownKind(_) => false
    case _ => Bare(op)
  }

  // The same by parameter: which operations carry it, and with which values.
  ghost predicate ParametersFit(op: Operation) {
    var k, c := op.kind, op.component;
    && !k.UnknownKind? && !c.UnknownComponent?
    && (c != NoComponent <==> k == UrlComponent)
    && (op.selector != [] <==> c == QueryKey || c == QueryValue)
    && (op.occurrence != 0 ==> c == QueryKey || c == QueryValue || k == TextSegment || k == EncodedRun)
    && (if k == PercentDecode then 1 <= op.passes <= 4 else op.passes == 0)
    && op.profile == (if k == DlpNormalize then DLP_PROFILE else if k == MatchingNormalize then MATCHING_PROFILE else [])
    && (op.decodePadding ==>
          k == Base32Decode || k == Base64Decode || k == Base32DecodeLiberal || k == Base64DecodeLiberal)
    && AlphabetFits(k, op.alphabet) && IndicesFit(k, op.indices)
    && (op.minimumLength != 0 <==> k == EncodedRun)
  }

  ghost predicate AlphabetFits(k: Kind, alphabet: Bytes) {
    if k == Base64DecodeLiberal then alphabet == Ascii("standard") || alphabet == Ascii("url")
    else if k == EncodedTokenNormalize then
      || alphabet == Ascii("hex") || alphabet == Ascii("base32")
      || alphabet == Ascii("base64_standard") || alphabet == Ascii("base64_url")
    else alphabet == []
  }

  ghost predicate IndicesFit(k: Kind, s: Bytes) {
    if k == QuerySubsequence then
      && 2 <= |s| <= 4 && (forall i :: 0 <= i < |s| ==> s[i] < 20)
      && (forall i, j :: 0 <= i < j < |s| ==> s[i] < s[j])
    else s == []
  }

  lemma ShapeByParameter(op: Operation)
    ensures ValidShape(op) <==> ParametersFit(op)
  {
    hide Ascii, ValidIndices;
    IncreasingIndices(op.indices);
    if ValidShape(op) {
      ShapeFits(op);
    }
    if ParametersFit(op) {
      FittingShape(op);
    }
  }

  lemma ShapeFits(op: Operation)
    requires ValidShape(op)
    ensures ParametersFit(op)
  {
    hide Ascii, ValidIndices, AlphabetFits, IndicesFit;
    ListsFit(op);
  }

  lemma ListsFit(op: Operation)
    requires ValidShape(op)
    ensures AlphabetFits(op.kind, op.alphabet) && IndicesFit(op.kind, op.indices)
  {
    hide Ascii, ValidIndices, ValidComponent;
    IncreasingIndices(op.indices);
  }

  lemma FittingShape(op: Operation)
    requires ParametersFit(op)
    ensures ValidShape(op)
  {
    hide Ascii, ValidIndices;
    IncreasingIndices(op.indices);
  }

  lemma IncreasingIndices(s: Bytes)
    ensures ValidIndices(s) <==>
            && 2 <= |s| <= 4 && (forall i :: 0 <= i < |s| ==> s[i] < 20)
            && (forall i, j :: 0 <= i < j < |s| ==> s[i] < s[j])
  {
    if ValidIndices(s) {
      assert s[0] < s[1] && (|s| > 2 ==> s[1] < s[2]) && (|s| > 3 ==> s[2] < s[3]);
    }
  }

  predicate ValidOperation(op: Operation) {
    NoControl(op.selector) && NoControl(op.profile) && |op.selector| < LENGTH_LIMIT && ValidShape(op)
  }

  predicate ValidRecipe(r: Recipe) {
    && r.digest == DIGEST && |r.operations| <= MAX_OPERATIONS
    && forall i :: 0 <= i < |r.operations| ==> ValidOperation(r.operations[i])
  }

  // ---- Encoding ----------------------------------------------------------

  const HEADER: Bytes := Ascii("pipelock/") + Ascii("evidence-provena") + Ascii("nce/recipe/v1")

  // The last k bytes of n, big-endian.
  function BigEndian(n: nat, k: nat): (s: Bytes)
    ensures |s| == k
  {
    if k == 0 then [] else BigEndian(n / 256, k - 1) + [(n % 256) as byte]
  }

  // appendFrame: the length in eight bytes, then the value.
  function Frame(v: Bytes): Bytes { BigEndian(|v|, 8) + v }

  function Frames(vs: seq<Bytes>): Bytes {
    if vs == [] then [] else Frame(vs[0]) + Frames(vs[1..])
  }

  function KindByte(k: Kind): byte {
    match k
    case Identity => 1 case UrlComponent => 2 case PercentDecode => 3 case DlpNormalize => 4 case Lowercase => 5
    case InvisibleStrip => 6 case HexDecode => 7 case Base32Decode => 8 case Base64Decode => 9 case Leetspeak => 10
    case VowelFold => 11 case QueryUnescape => 12 case InvisibleSpace => 13 case MatchingNormalize => 14
    case HexDecodeLiberal => 15 case Base32DecodeLiberal => 16 case Base64DecodeLiberal => 17
    case EncodedTokenNormalize => 18 case TextSegment => 19 case HtmlEntityDecode => 20 case WhitespaceCompact => 21
    case UrlNoiseStrip => 22 case OrderedQueryConcat => 23 case QuerySubsequence => 24 case HostnameDotRemove => 25
    case EncodedRun => 26 case CanaryCanonicalize => 27 case UnknownKind(_) => 0
  }

  function ComponentByte(c: Component): byte {
    match c
    case NoComponent => 0 case Url => 1 case Hostname => 2 case Path => 3 case QueryKey => 4 case QueryValue => 5
    case RawQuery => 6 case UnknownComponent(_) => 7
  }

  // The vocabulary in its published order, eleven kinds without a parameter tail
  // and sixteen with one; bytes are its positions from one.
  const LEGACY_KINDS: seq<Kind> := [
    Identity, UrlComponent, PercentDecode, DlpNormalize, Lowercase, InvisibleStrip, HexDecode, Base32Decode,
    Base64Decode, Leetspeak, VowelFold]
  const TAILED_KINDS: seq<Kind> := [
    QueryUnescape, InvisibleSpace, MatchingNormalize, HexDecodeLiberal, Base32DecodeLiberal, Base64DecodeLiberal,
    EncodedTokenNormalize, TextSegment]
  const MORE_TAILED_KINDS: seq<Kind> := [
    HtmlEntityDecode, WhitespaceCompact, UrlNoiseStrip, OrderedQueryConcat, QuerySubsequence, HostnameDotRemove,
    EncodedRun, CanaryCanonicalize]

  lemma BytesFollowVocabulary(i: nat)
    ensures i < |LEGACY_KINDS| ==> KindByte(LEGACY_KINDS[i]) as int == i + 1
    ensures i < |TAILED_KINDS| ==> KindByte(TAILED_KINDS[i]) as int == i + 12
    ensures i < |MORE_TAILED_KINDS| ==> KindByte(MORE_TAILED_KINDS[i]) as int == i + 20
  {
    hide KindByte;
    LegacyBytes(i);
    TailedBytes(i);
    MoreTailedBytes(i);
  }

  lemma LegacyBytes(i: nat)
    ensures i < |LEGACY_KINDS| ==> KindByte(LEGACY_KINDS[i]) as int == i + 1
  {
  }

  lemma TailedBytes(i: nat)
    ensures i < |TAILED_KINDS| ==> KindByte(TAILED_KINDS[i]) as int == i + 12
  {
  }

  lemma MoreTailedBytes(i: nat)
    ensures i < |MORE_TAILED_KINDS| ==> KindByte(MORE_TAILED_KINDS[i]) as int == i + 20
  {
  }

  lemma OnlyTailedKindsHaveTails(i: nat, op: Operation)
    ensures i < |LEGACY_KINDS| && op.kind == LEGACY_KINDS[i] ==> TailParts(op) == []
    ensures i < |TAILED_KINDS| && op.kind == TAILED_KINDS[i] ==> |TailParts(op)| == 3
    ensures i < |MORE_TAILED_KINDS| && op.kind == MORE_TAILED_KINDS[i] ==> |TailParts(op)| == 3
  {
    hide KindByte, BigEndian;
    BytesFollowVocabulary(i);
  }

  // Kinds from 12 on carry a parameter tail, the older ones none.
  function BaseParts(op: Operation): seq<Bytes> {
    [[KindByte(op.kind)], [ComponentByte(op.component)], op.selector, BigEndian(op.occurrence, 4), [op.passes],
     op.profile, [if op.decodePadding then 1 else 0]]
  }

  function TailParts(op: Operation): seq<Bytes> {
    if KindByte(op.kind) >= 12 then [op.alphabet, op.indices, BigEndian(op.minimumLength, 4)] else []
  }

  function OperationBytes(op: Operation): Bytes { Frames(BaseParts(op) + TailParts(op)) }

  function OperationList(ops: seq<Operation>): seq<Bytes> {
    if ops == [] then [] else [OperationBytes(ops[0])] + OperationList(ops[1..])
  }

  function Encoding(r: Recipe): Bytes {
    Frames([HEADER, r.digest, BigEndian(|r.operations|, 8)] + OperationList(r.operations))
  }

  // CanonicalRecipeBytes
  function RecipeBytes(r: Recipe): Option<Bytes> { if ValidRecipe(r) then Some(Encoding(r)) else None }

  method CanonicalRecipeBytes(r: Recipe) returns (encoded: Option<Bytes>)
    ensures encoded == RecipeBytes(r)
  {
    hide ValidRecipe, Frames, OperationBytes;
    if !ValidRecipe(r) { return None; }
    var prefix := [HEADER, r.digest, BigEndian(|r.operations|, 8)];
    var result := Frame(HEADER) + Frame(r.digest) + Frame(BigEndian(|r.operations|, 8));
    var n := |r.operations|;
    ThreeFrames(HEADER, r.digest, BigEndian(n, 8));
    assert r.operations[..0] == [];
    for i := 0 to n
      invariant result == Frames(prefix + OperationList(r.operations[..i]))
    {
      OperationListSnoc(r.operations, i);
      FramesSnoc(prefix + OperationList(r.operations[..i]), OperationBytes(r.operations[i]));
      assert prefix + (OperationList(r.operations[..i]) + [OperationBytes(r.operations[i])])
             == (prefix + OperationList(r.operations[..i])) + [OperationBytes(r.operations[i])];
      result := result + Frame(OperationBytes(r.operations[i]));
    }
    assert r.operations[..n] == r.operations;
    return Some(result);
  }

  lemma ThreeFrames(a: Bytes, b: Bytes, c: Bytes)
    ensures Frames([a, b, c] + []) == Frame(a) + Frame(b) + Frame(c)
  {
    hide Frame, Frames;
    assert [a, b, c] + [] == [a, b, c] && [a, b, c][1..] == [b, c] && [b, c][1..] == [c] && [c][1..] == [];
    UnfoldFrames([a, b, c]);
    UnfoldFrames([b, c]);
    UnfoldFrames([c]);
    UnfoldFrames([]);
  }

  lemma UnfoldFrames(vs: seq<Bytes>)
    ensures Frames(vs) == if vs == [] then [] else Frame(vs[0]) + Frames(vs[1..])
    ensures |Frames(vs)| == if vs == [] then 0 else 8 + |vs[0]| + |Frames(vs[1..])|
  {
  }

  lemma OperationListSnoc(ops: seq<Operation>, i: nat)
    requires i < |ops|
    ensures OperationList(ops[..i + 1]) == OperationList(ops[..i]) + [OperationBytes(ops[i])]
    decreases i
  {
    hide OperationBytes;
    if i == 0 {
      assert ops[..1][1..] == [] && ops[..0] == [];
    } else {
      OperationListSnoc(ops[1..], i - 1);
      assert ops[..i + 1][1..] == ops[1..][..i] && ops[..i][1..] == ops[1..][..i - 1];
    }
  }

  lemma FramesSnoc(vs: seq<Bytes>, v: Bytes)
    ensures Frames(vs + [v]) == Frames(vs) + Frame(v)
  {
    hide Frame, Frames;
    FramesConcat(vs, [v]);
    UnfoldFrames([v]);
    assert [v][1..] == [];
    UnfoldFrames([]);
    assert Frame(v) + [] == Frame(v);
  }

  // ---- The encoding loses nothing ---------------------------------------

  function Pow256(k: nat): nat { if k == 0 then 1 else 256 * Pow256(k - 1) }

  lemma {:induction false} BigEndianInjective(a: nat, b: nat, k: nat)
    requires a < Pow256(k) && b < Pow256(k) && BigEndian(a, k) == BigEndian(b, k)
    ensures a == b
  {
    if k > 0 {
      var x, y := BigEndian(a, k), BigEndian(b, k);
      assert x[k - 1] == (a % 256) as byte && y[k - 1] == (b % 256) as byte;
      assert x[..k - 1] == BigEndian(a / 256, k - 1) && y[..k - 1] == BigEndian(b / 256, k - 1);
      BigEndianInjective(a / 256, b / 256, k - 1);
    }
  }

  lemma Powers()
    ensures Pow256(4) == 0x1_0000_0000 && Pow256(8) == 0x1_0000_0000_0000_0000
  {
    assert Pow256(2) == 0x1_0000;
    assert Pow256(4) == 256 * (256 * Pow256(2));
    assert Pow256(6) == 256 * (256 * Pow256(4));
    assert Pow256(8) == 256 * (256 * Pow256(6));
  }

  ghost predicate Sized(vs: seq<Bytes>) { forall i :: 0 <= i < |vs| ==> |vs[i]| < Pow256(8) }

  lemma FrameCancel(a: Bytes, b: Bytes, s: Bytes, t: Bytes)
    requires |a| < Pow256(8) && |b| < Pow256(8) && Frame(a) + s == Frame(b) + t
    ensures a == b && s == t
  {
    hide BigEndian, Pow256;
    var x := Frame(a) + s;
    assert x[..8] == BigEndian(|a|, 8) && x[..8] == BigEndian(|b|, 8);
    BigEndianInjective(|a|, |b|, 8);
    assert x[8..8 + |a|] == a && x[8..8 + |b|] == b;
    assert x[8 + |a|..] == s && x[8 + |b|..] == t;
  }

  // A sequence of frames reads back in one way only.
  lemma {:induction false} FramesInjective(vs: seq<Bytes>, ws: seq<Bytes>)
    requires Sized(vs) && Sized(ws) && Frames(vs) == Frames(ws)
    ensures vs == ws
  {
    hide Pow256, BigEndian;
    if vs != [] && ws != [] {
      FrameCancel(vs[0], ws[0], Frames(vs[1..]), Frames(ws[1..]));
      FramesInjective(vs[1..], ws[1..]);
      assert vs == [vs[0]] + vs[1..] && ws == [ws[0]] + ws[1..];
    }
  }

  lemma PartsAreSized(op: Operation)
    requires ValidOperation(op)
    ensures Sized(BaseParts(op) + TailParts(op)) && |OperationBytes(op)| < Pow256(8)
  {
    hide BigEndian, Pow256, NoControl, ValidShape, Frames;
    Powers();
    ShapeBounds(op);
    var b, t := BaseParts(op), TailParts(op);
    FramesConcat(b, t);
    LengthOfSeven(b);
    LengthOfTail(op);
  }

  lemma ShapeBounds(op: Operation)
    requires ValidShape(op)
    ensures |op.profile| <= 20 && |op.alphabet| <= 15 && |op.indices| <= 4 && op.passes <= MAX_PASSES
  {
  }

  lemma LengthOfSeven(b: seq<Bytes>)
    requires |b| == 7
    ensures |Frames(b)| == 56 + |b[0]| + |b[1]| + |b[2]| + |b[3]| + |b[4]| + |b[5]| + |b[6]|
  {
    hide Frame, Frames;
    UnfoldFrames(b);
    UnfoldFrames(b[1..]);
    UnfoldFrames(b[2..]);
    UnfoldFrames(b[3..]);
    UnfoldFrames(b[4..]);
    UnfoldFrames(b[5..]);
    UnfoldFrames(b[6..]);
    UnfoldFrames([]);
    assert b[1..][1..] == b[2..] && b[2..][1..] == b[3..] && b[3..][1..] == b[4..];
    assert b[4..][1..] == b[5..] && b[5..][1..] == b[6..] && b[6..][1..] == [];
  }

  lemma LengthOfTail(op: Operation)
    requires |op.alphabet| <= 15 && |op.indices| <= 4
    ensures |Frames(TailParts(op))| < 50
  {
    hide Frame, Frames, BigEndian;
    var t := TailParts(op);
    UnfoldFrames(t);
    UnfoldFrames([]);
    if t != [] {
      UnfoldFrames(t[1..]);
      UnfoldFrames(t[2..]);
      assert t[1..][1..] == t[2..] && t[2..] == [BigEndian(op.minimumLength, 4)] && t[2..][1..] == [];
    }
  }

  lemma {:induction false} FramesConcat(vs: seq<Bytes>, ws: seq<Bytes>)
    ensures Frames(vs + ws) == Frames(vs) + Frames(ws)
  {
    hide Frame, Frames;
    UnfoldFrames(vs);
    if vs == [] {
      assert vs + ws == ws;
    } else {
      UnfoldFrames(vs + ws);
      FramesConcat(vs[1..], ws);
      assert (vs + ws)[1..] == vs[1..] + ws;
      assert Frame(vs[0]) + (Frames(vs[1..]) + Frames(ws)) == (Frame(vs[0]) + Frames(vs[1..])) + Frames(ws);
    }
  }

  lemma KindByteInjective(a: Kind, b: Kind)
    requires KindByte(a) == KindByte(b) && !a.UnknownKind? && !b.UnknownKind?
    ensures a == b
  {
  }

  lemma KnownNames(op: Operation)
    requires ValidShape(op)
    ensures !op.kind.UnknownKind? && !op.component.UnknownComponent?
    ensures KindByte(op.kind) < 12 ==> op.alphabet == [] && op.indices == [] && op.minimumLength == 0
    ensures 1 <= KindByte(op.kind) <= 27 && ComponentByte(op.component) <= 6
  {
  }

  lemma OperationBytesInjective(x: Operation, y: Operation)
    requires ValidOperation(x) && ValidOperation(y) && OperationBytes(x) == OperationBytes(y)
    ensures x == y
  {
    hide Frames, BigEndian, Pow256, ValidShape, KindByte, ComponentByte;
    PartsAreSized(x);
    PartsAreSized(y);
    var p, q := BaseParts(x) + TailParts(x), BaseParts(y) + TailParts(y);
    FramesInjective(p, q);
    assert forall i :: 0 <= i < 7 ==> p[i] == BaseParts(x)[i] && q[i] == BaseParts(y)[i];
    assert p[7..] == TailParts(x) && q[7..] == TailParts(y);
    SamePartsSameOperation(x, y);
  }

  lemma SamePartsSameOperation(x: Operation, y: Operation)
    requires ValidShape(x) && ValidShape(y) && TailParts(x) == TailParts(y)
    requires forall i :: 0 <= i < 7 ==> BaseParts(x)[i] == BaseParts(y)[i]
    ensures x == y
  {
    hide BigEndian, Pow256, ValidShape, KindByte, ComponentByte;
    KnownNames(x);
    KnownNames(y);
    Powers();
    var p, q := BaseParts(x), BaseParts(y);
    assert p[0] == [KindByte(x.kind)] && q[0] == [KindByte(y.kind)];
    KindByteInjective(x.kind, y.kind);
    assert p[1] == [ComponentByte(x.component)] && q[1] == [ComponentByte(y.component)];
    ComponentByteInjective(x.component, y.component);
    assert p[2] == x.selector && q[2] == y.selector;
    assert p[3] == BigEndian(x.occurrence, 4) && q[3] == BigEndian(y.occurrence, 4);
    BigEndianInjective(x.occurrence, y.occurrence, 4);
    assert p[4] == [x.passes] && q[4] == [y.passes];
    assert p[5] == x.profile && q[5] == y.profile;
    assert p[6] == [if x.decodePadding then 1 else 0] && q[6] == [if y.decodePadding then 1 else 0];
    if KindByte(x.kind) >= 12 {
      var t, u := TailParts(x), TailParts(y);
      assert t[0] == x.alphabet && u[0] == y.alphabet && t[1] == x.indices && u[1] == y.indices;
      assert t[2] == BigEndian(x.minimumLength, 4) && u[2] == BigEndian(y.minimumLength, 4);
      BigEndianInjective(x.minimumLength, y.minimumLength, 4);
    }
  }

  lemma ComponentByteInjective(a: Component, b: Component)
    requires ComponentByte(a) == ComponentByte(b) && !a.UnknownComponent? && !b.UnknownComponent?
    ensures a == b
  {
  }

  lemma {:induction false} OperationListInjective(x: seq<Operation>, y: seq<Operation>)
    requires forall i :: 0 <= i < |x| ==> ValidOperation(x[i])
    requires forall i :: 0 <= i < |y| ==> ValidOperation(y[i])
    requires OperationList(x) == OperationList(y)
    ensures x == y
  {
    hide OperationBytes, ValidOperation;
    if x != [] && y != [] {
      var p, q := OperationList(x), OperationList(y);
      assert p[0] == OperationBytes(x[0]) && q[0] == OperationBytes(y[0]);
      assert p[1..] == OperationList(x[1..]) && q[1..] == OperationList(y[1..]);
      OperationBytesInjective(x[0], y[0]);
      OperationListInjective(x[1..], y[1..]);
      assert x == [x[0]] + x[1..] && y == [y[0]] + y[1..];
    }
  }

  lemma {:induction false} OperationListSized(ops: seq<Operation>)
    requires forall i :: 0 <= i < |ops| ==> ValidOperation(ops[i])
    ensures Sized(OperationList(ops))
  {
    hide OperationBytes, ValidOperation, Pow256;
    if ops != [] {
      PartsAreSized(ops[0]);
      Powers();
      OperationListSized(ops[1..]);
    }
  }

  // Valid recipes with equal encodings are equal.
  lemma EncodingInjective(r: Recipe, s: Recipe)
    requires ValidRecipe(r) && ValidRecipe(s) && Encoding(r) == Encoding(s)
    ensures r == s
  {
    hide Frames, BigEndian, Pow256, ValidOperation, OperationList;
    Powers();
    OperationListSized(r.operations);
    OperationListSized(s.operations);
    var p, q := OperationList(r.operations), OperationList(s.operations);
    var a, b := [HEADER, r.digest, BigEndian(|r.operations|, 8)], [HEADER, s.digest, BigEndian(|s.operations|, 8)];
    FramesInjective(a + p, b + q);
    assert (a + p)[3..] == p && (b + q)[3..] == q;
    OperationListInjective(r.operations, s.operations);
  }
}
