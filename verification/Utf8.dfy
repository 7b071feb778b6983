// UTF-8 views and byte coordinates into them.
module Utf8 {

  type Bytes = seq<bv8>

  predicate Tail(b: bv8) { (b & 0xc0) == 0x80 }

  predicate InRange(b: bv8, lo: bv8, hi: bv8) { lo <= b <= hi }

  // Length of the well-formed character at the front, 0 if there is none
  // (the UTF8-octets grammar of section 4 of RFC 3629).
  function CharLen(s: Bytes): (n: nat)
    ensures n <= |s| && n <= 4
  {
    if s == [] then 0
    else if InRange(s[0], 0x00, 0x7f) then 1
    else if |s| >= 2 && InRange(s[0], 0xc2, 0xdf) && Tail(s[1]) then 2
    else if |s| >= 3 && Lead3(s[0], s[1]) && Tail(s[2]) then 3
    else if |s| >= 4 && Lead4(s[0], s[1]) && Tail(s[2]) && Tail(s[3]) then 4
    else 0
  }

  predicate Lead3(a: bv8, b: bv8) {
    || (a == 0xe0 && InRange(b, 0xa0, 0xbf))
    || (InRange(a, 0xe1, 0xec) && Tail(b))
    || (a == 0xed && InRange(b, 0x80, 0x9f))
    || (InRange(a, 0xee, 0xef) && Tail(b))
  }

  predicate Lead4(a: bv8, b: bv8) {
    || (a == 0xf0 && InRange(b, 0x90, 0xbf))
    || (InRange(a, 0xf1, 0xf3) && Tail(b))
    || (a == 0xf4 && InRange(b, 0x80, 0x8f))
  }

  // utf8.Valid
  predicate Valid(s: Bytes) { s == [] || (CharLen(s) > 0 && Valid(s[CharLen(s)..])) }

  // k bytes are a whole number of characters.
  predicate CharBoundary(s: Bytes, k: nat) {
    k == 0 || (0 < CharLen(s) <= k && CharBoundary(s[CharLen(s)..], k - CharLen(s)))
  }

  // provenanceByteBoundary: ends of the string, or not in front of a tail byte.
  predicate ByteBoundary(s: Bytes, k: nat) {
    k == 0 || k == |s| || (k < |s| && (s[k] & 0xc0) != 0x80)
  }

  // A character's first byte is never a tail byte, all its others are.
  lemma FirstByteIsNotTail(s: Bytes)
    requires CharLen(s) > 0
    ensures !Tail(s[0])
  {
  }

  lemma LaterBytesAreTails(s: Bytes, k: nat)
    requires 0 < k < CharLen(s)
    ensures Tail(s[k])
  {
  }

  // On valid UTF-8 the local test finds exactly the character boundaries.
  lemma {:induction false} BoundaryTestIsExact(s: Bytes, k: nat)
    requires Valid(s) && k <= |s|
    ensures ByteBoundary(s, k) <==> CharBoundary(s, k)
    decreases |s|
  {
    hide CharLen, Tail;
    if k > 0 {
      var n := CharLen(s);
      TailTest();
      if k < n {
        LaterBytesAreTails(s, k);
      } else {
        BoundaryTestIsExact(s[n..], k - n);
        if n < |s| && k == n {
          FirstByteIsNotTail(s[n..]);
        } else if k < |s| {
          assert s[n..][k - n] == s[k];
        }
      }
    }
  }

  lemma TailTest()
    ensures forall b: bv8 :: Tail(b) <==> (b & 0xc0) == 0x80
  {
  }

  // Cutting valid UTF-8 at boundaries leaves valid UTF-8.
  lemma {:induction false} SuffixIsValid(s: Bytes, k: nat)
    requires Valid(s) && k <= |s| && CharBoundary(s, k)
    ensures Valid(s[k..])
    decreases |s|
  {
    hide CharLen;
    if k > 0 {
      var n := CharLen(s);
      SuffixIsValid(s[n..], k - n);
      assert s[n..][k - n..] == s[k..];
    } else {
      assert s[0..] == s;
    }
  }

  lemma {:induction false} PrefixIsValid(s: Bytes, k: nat)
    requires Valid(s) && k <= |s| && CharBoundary(s, k)
    ensures Valid(s[..k])
    decreases |s|
  {
    if k > 0 {
      var n := CharLen(s);
      PrefixIsValid(s[n..], k - n);
      CharLenOfPrefix(s, k);
      assert s[..k][n..] == s[n..][..k - n];
    }
  }

  lemma CharLenOfPrefix(s: Bytes, k: nat)
    requires 0 < CharLen(s) <= k <= |s|
    ensures CharLen(s[..k]) == CharLen(s)
  {
  }

  lemma {:induction false} BoundariesCompose(s: Bytes, a: nat, b: nat)
    requires Valid(s) && a <= b <= |s| && CharBoundary(s, a) && CharBoundary(s, b)
    ensures CharBoundary(s[a..], b - a)
    decreases |s|
  {
    hide CharLen;
    if a > 0 {
      var n := CharLen(s);
      BoundariesCompose(s[n..], a - n, b - n);
      assert s[n..][a - n..] == s[a..];
    } else {
      assert s[0..] == s;
    }
  }

  datatype Interval = Interval(start: nat, end: nat)

  predicate Locates(view: Bytes, m: Interval) {
    m.start < m.end <= |view| && ByteBoundary(view, m.start) && ByteBoundary(view, m.end)
  }

  // validateProvenanceLocations
  method ValidateLocations(view: Bytes, matches: seq<Interval>) returns (ok: bool)
    ensures ok <==> forall i :: 0 <= i < |matches| ==> Locates(view, matches[i])
  {
    for i := 0 to |matches|
      invariant forall l :: 0 <= l < i ==> Locates(view, matches[l])
    {
      var m := matches[i];
      if m.start >= m.end || m.end > |view| { return false; }
      if !ByteBoundary(view, m.start) || !ByteBoundary(view, m.end) { return false; }
    }
    return true;
  }

  // An accepted interval cuts a valid view into three valid pieces, the middle
  // one not empty; and no other interval does.
  lemma LocatedSlicesAreText(view: Bytes, m: Interval)
    requires Valid(view)
    ensures Locates(view, m) <==>
            && m.start < m.end <= |view|
            && Valid(view[..m.start]) && Valid(view[m.start..m.end]) && Valid(view[m.end..])
    ensures Locates(view, m) ==> view == view[..m.start] + view[m.start..m.end] + view[m.end..]
  {
    hide Valid, CharBoundary, ByteBoundary;
    if m.start < m.end <= |view| {
      BoundaryTestIsExact(view, m.start);
      BoundaryTestIsExact(view, m.end);
      if Locates(view, m) {
        CutIsValid(view, m.start, m.end);
      }
      if Valid(view[..m.start]) && Valid(view[m.start..m.end]) && Valid(view[m.end..]) {
        CutIsAtBoundaries(view, m.start, m.end);
      }
    }
  }

  lemma CutIsValid(s: Bytes, a: nat, b: nat)
    requires Valid(s) && a <= b <= |s| && CharBoundary(s, a) && CharBoundary(s, b)
    ensures Valid(s[..a]) && Valid(s[a..b]) && Valid(s[b..])
  {
    hide Valid, CharBoundary;
    PrefixIsValid(s, a);
    SuffixIsValid(s, b);
    SuffixIsValid(s, a);
    BoundariesCompose(s, a, b);
    PrefixIsValid(s[a..], b - a);
    assert s[a..][..b - a] == s[a..b];
  }

  lemma CutIsAtBoundaries(s: Bytes, a: nat, b: nat)
    requires Valid(s) && a <= b <= |s| && Valid(s[..a]) && Valid(s[a..b])
    ensures CharBoundary(s, a) && CharBoundary(s, b)
  {
    hide Valid, CharBoundary;
    ValidPrefixIsBoundary(s, a);
    ConcatIsValid(s[..a], s[a..b]);
    assert s[..a] + s[a..b] == s[..b];
    ValidPrefixIsBoundary(s, b);
  }

  lemma {:induction false} ValidPrefixIsBoundary(s: Bytes, k: nat)
    requires Valid(s) && k <= |s| && Valid(s[..k])
    ensures CharBoundary(s, k)
    decreases |s|
  {
    if k > 0 {
      var n := CharLen(s[..k]);
      PrefixDecides(s, k);
      assert s[..k][n..] == s[n..][..k - n];
      ValidPrefixIsBoundary(s[n..], k - n);
    }
  }

  lemma PrefixDecides(s: Bytes, k: nat)
    requires k <= |s| && CharLen(s[..k]) > 0
    ensures CharLen(s) == CharLen(s[..k])
  {
  }

  lemma {:induction false} ConcatIsValid(a: Bytes, b: Bytes)
    requires Valid(a) && Valid(b)
    ensures Valid(a + b)
    decreases |a|
  {
    hide CharLen;
    if a == [] {
      assert a + b == b;
    } else {
      var n := CharLen(a);
      assert (a + b)[..|a|] == a;
      PrefixDecides(a + b, |a|);
      DropOfConcat(a, b, n);
      ConcatIsValid(a[n..], b);
    }
  }

  lemma DropOfConcat(a: Bytes, b: Bytes, n: nat)
    requires n <= |a|
    ensures (a + b)[n..] == a[n..] + b
  {
  }

  // ---- Characters are the scalar values ----------------------------------
  // Section 3 of RFC 3629: which scalar values there are, and their octets.

  predicate Scalar(cp: bv32) { cp <= 0x10ffff && !(0xd800 <= cp <= 0xdfff) }

  function Encode(cp: bv32): Bytes
    requires Scalar(cp)
  {
    if cp < 0x80 then [cp as bv8]
    else if cp < 0x800 then [(0xc0 | (cp >> 6)) as bv8, (0x80 | (cp & 0x3f)) as bv8]
    else if cp < 0x10000 then
      [(0xe0 | (cp >> 12)) as bv8, (0x80 | ((cp >> 6) & 0x3f)) as bv8, (0x80 | (cp & 0x3f)) as bv8]
    else
      [(0xf0 | (cp >> 18)) as bv8, (0x80 | ((cp >> 12) & 0x3f)) as bv8, (0x80 | ((cp >> 6) & 0x3f)) as bv8,
       (0x80 | (cp & 0x3f)) as bv8]
  }

  function Decode(s: Bytes): bv32
    requires CharLen(s) > 0
  {
    match CharLen(s)
    case 1 => s[0] as bv32
    case 2 => (((s[0] & 0x1f) as bv32) << 6) | ((s[1] & 0x3f) as bv32)
    case 3 => Join3(s[0], s[1], s[2])
    case _ => Join4(s[0], s[1], s[2], s[3])
  }

  function Join3(a: bv8, b: bv8, c: bv8): bv32 {
    (((a & 0x0f) as bv32) << 12) | (((b & 0x3f) as bv32) << 6) | ((c & 0x3f) as bv32)
  }

  function Join4(a: bv8, b: bv8, c: bv8, d: bv8): bv32 {
    (((a & 0x07) as bv32) << 18) | (((b & 0x3f) as bv32) << 12) | (((c & 0x3f) as bv32) << 6) | ((d & 0x3f) as bv32)
  }

  // Every scalar value is one character ...
  lemma ScalarIsCharacter(cp: bv32, rest: Bytes)
    requires Scalar(cp)
    ensures CharLen(Encode(cp) + rest) == |Encode(cp)|
  {
    var e := Encode(cp);
    var s := e + rest;
    assert forall i :: 0 <= i < |e| ==> s[i] == e[i];
    if cp >= 0x10000 {
      FourBytes(cp);
      assert e[0] == s[0] && e[1] == s[1] && e[2] == s[2] && e[3] == s[3];
    } else if cp >= 0x800 {
      ThreeBytes(cp);
      assert e[0] == s[0] && e[1] == s[1] && e[2] == s[2];
    } else if cp >= 0x80 {
      TwoBytes(cp);
      assert e[0] == s[0] && e[1] == s[1];
    }
  }

  lemma TwoBytes(cp: bv32)
    requires 0x80 <= cp < 0x800
    ensures InRange((0xc0 | (cp >> 6)) as bv8, 0xc2, 0xdf) && Tail((0x80 | (cp & 0x3f)) as bv8)
  {
  }

  lemma ThreeBytes(cp: bv32)
    requires 0x800 <= cp < 0x10000 && Scalar(cp)
    ensures Lead3((0xe0 | (cp >> 12)) as bv8, (0x80 | ((cp >> 6) & 0x3f)) as bv8) && Tail((0x80 | (cp & 0x3f)) as bv8)
    ensures 0xe0 <= (0xe0 | (cp >> 12)) as bv8 <= 0xef
  {
  }

  lemma FourBytes(cp: bv32)
    requires 0x10000 <= cp && Scalar(cp)
    ensures Lead4((0xf0 | (cp >> 18)) as bv8, (0x80 | ((cp >> 12) & 0x3f)) as bv8)
    ensures Tail((0x80 | ((cp >> 6) & 0x3f)) as bv8) && Tail((0x80 | (cp & 0x3f)) as bv8)
    ensures 0xf0 <= (0xf0 | (cp >> 18)) as bv8
  {
  }

  // ... and every character is one scalar value.
  lemma CharacterIsScalar(s: Bytes)
    requires CharLen(s) > 0
    ensures Scalar(Decode(s)) && Encode(Decode(s)) == s[..CharLen(s)]
  {
    hide Encode, Decode;
    match CharLen(s) {
      case 1 => OneOctetCharacter(s);
      case 2 => TwoOctetCharacter(s);
      case 3 => ThreeOctetCharacter(s);
      case _ => FourOctetCharacter(s);
    }
  }

  lemma OneOctetCharacter(s: Bytes)
    requires CharLen(s) == 1
    ensures Scalar(Decode(s)) && Encode(Decode(s)) == s[..1]
  {
    OneOctet(s[0]);
    assert Encode(s[0] as bv32) == [s[0]];
  }

  lemma TwoOctetCharacter(s: Bytes)
    requires CharLen(s) == 2
    ensures Scalar(Decode(s)) && Encode(Decode(s)) == s[..2]
  {
    TwoOctets(s[0], s[1]);
    assert Encode(Decode(s)) == [s[0], s[1]];
  }

  lemma ThreeOctetCharacter(s: Bytes)
    requires CharLen(s) == 3
    ensures Scalar(Decode(s)) && Encode(Decode(s)) == s[..3]
  {
    hide Lead3, Lead4, Tail, Scalar, InRange, Join3, Encode;
    ThreeOctets(s[0], s[1], s[2]);
    assert s[..3] == [s[0], s[1], s[2]];
  }

  lemma FourOctetCharacter(s: Bytes)
    requires CharLen(s) == 4
    ensures Scalar(Decode(s)) && Encode(Decode(s)) == s[..4]
  {
    hide Lead3, Lead4, Tail, Scalar, InRange, Join4, Encode;
    FourOctets(s[0], s[1], s[2], s[3]);
    assert s[..4] == [s[0], s[1], s[2], s[3]];
  }

  lemma OneOctet(a: bv8)
    requires InRange(a, 0x00, 0x7f)
    ensures (a as bv32) < 0x80 && (a as bv32) as bv8 == a
  {
  }

  lemma TwoOctets(a: bv8, b: bv8)
    requires InRange(a, 0xc2, 0xdf) && Tail(b)
    ensures var cp := (((a & 0x1f) as bv32) << 6) | ((b & 0x3f) as bv32);
            0x80 <= cp < 0x800 && (0xc0 | (cp >> 6)) as bv8 == a && (0x80 | (cp & 0x3f)) as bv8 == b
  {
  }

  lemma ThreeOctets(a: bv8, b: bv8, c: bv8)
    requires Lead3(a, b) && Tail(c)
    ensures Scalar(Join3(a, b, c)) && Encode(Join3(a, b, c)) == [a, b, c]
  {
    hide Encode;
    ThreeOctetBits(a, b, c);
    EncodeThree(Join3(a, b, c));
  }

  lemma ThreeOctetBits(a: bv8, b: bv8, c: bv8)
    requires Lead3(a, b) && Tail(c)
    ensures var cp := Join3(a, b, c);
            && 0x800 <= cp < 0x10000 && Scalar(cp) && (0xe0 | (cp >> 12)) as bv8 == a
            && (0x80 | ((cp >> 6) & 0x3f)) as bv8 == b && (0x80 | (cp & 0x3f)) as bv8 == c
  {
  }

  lemma EncodeThree(cp: bv32)
    requires 0x800 <= cp < 0x10000 && Scalar(cp)
    ensures Encode(cp) == [(0xe0 | (cp >> 12)) as bv8, (0x80 | ((cp >> 6) & 0x3f)) as bv8, (0x80 | (cp & 0x3f)) as bv8]
  {
  }

  lemma FourOctets(a: bv8, b: bv8, c: bv8, d: bv8)
    requires Lead4(a, b) && Tail(c) && Tail(d)
    ensures Scalar(Join4(a, b, c, d)) && Encode(Join4(a, b, c, d)) == [a, b, c, d]
  {
    hide Encode;
    FourOctetBits(a, b, c, d);
    EncodeFour(Join4(a, b, c, d));
  }

  lemma FourOctetBits(a: bv8, b: bv8, c: bv8, d: bv8)
    requires Lead4(a, b) && Tail(c) && Tail(d)
    ensures var cp := Join4(a, b, c, d);
            && 0x10000 <= cp && Scalar(cp) && (0xf0 | (cp >> 18)) as bv8 == a && (0x80 | ((cp >> 12) & 0x3f)) as bv8 == b
            && (0x80 | ((cp >> 6) & 0x3f)) as bv8 == c && (0x80 | (cp & 0x3f)) as bv8 == d
  {
  }

  lemma EncodeFour(cp: bv32)
    requires 0x10000 <= cp && Scalar(cp)
    ensures Encode(cp) == [(0xf0 | (cp >> 18)) as bv8, (0x80 | ((cp >> 12) & 0x3f)) as bv8,
                           (0x80 | ((cp >> 6) & 0x3f)) as bv8, (0x80 | (cp & 0x3f)) as bv8]
  {
  }

  // A view is valid exactly when it is the octets of some scalar values in a row.
  function EncodeAll(cps: seq<bv32>): Bytes
    requires forall i :: 0 <= i < |cps| ==> Scalar(cps[i])
  {
    if cps == [] then [] else Encode(cps[0]) + EncodeAll(cps[1..])
  }

  ghost predicate IsText(s: Bytes) {
    exists cps: seq<bv32> :: (forall i :: 0 <= i < |cps| ==> Scalar(cps[i])) && EncodeAll(cps) == s
  }

  lemma ValidExactly(s: Bytes)
    ensures Valid(s) <==> IsText(s)
  {
    if Valid(s) {
      var cps := DecodeAll(s);
    }
    if IsText(s) {
      var cps: seq<bv32> :| (forall i :: 0 <= i < |cps| ==> Scalar(cps[i])) && EncodeAll(cps) == s;
      TextIsValid(cps);
    }
  }

  lemma {:induction false} DecodeAll(s: Bytes) returns (cps: seq<bv32>)
    requires Valid(s)
    ensures (forall i :: 0 <= i < |cps| ==> Scalar(cps[i])) && EncodeAll(cps) == s
    decreases |s|
  {
    hide CharLen, Scalar, Encode, Decode;
    if s == [] {
      cps := [];
    } else {
      var n := CharLen(s);
      CharacterIsScalar(s);
      var rest := DecodeAll(s[n..]);
      cps := [Decode(s)] + rest;
      assert cps[1..] == rest && s == s[..n] + s[n..];
    }
  }

  lemma {:induction false} TextIsValid(cps: seq<bv32>)
    requires forall i :: 0 <= i < |cps| ==> Scalar(cps[i])
    ensures Valid(EncodeAll(cps))
  {
    hide CharLen, Scalar, Encode;
    if cps != [] {
      var rest := EncodeAll(cps[1..]);
      TextIsValid(cps[1..]);
      ScalarIsCharacter(cps[0], rest);
      assert (Encode(cps[0]) + rest)[|Encode(cps[0])|..] == rest;
      EncodeIsNotEmpty(cps[0]);
    }
  }

  lemma EncodeIsNotEmpty(cp: bv32)
    requires Scalar(cp)
    ensures |Encode(cp)| > 0
  {
  }
}
