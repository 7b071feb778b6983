// The two walkers that reject JSON documents with repeated member names, over
// the token stream of Go's encoding/json decoder.
module JsonWalkers {
  import opened Optional

  // Commas and colons are consumed by the decoder; Bad stands for any point at
  // which it reports a syntax error.
  datatype Token = LBrace | RBrace | LBracket | RBracket | Str(s: string) | Scalar | Bad

  // ---- The decoder -------------------------------------------------------

  datatype Frame = InArray | AtKey | AtValue

  datatype Dec = Dec(rest: seq<Token>, stack: seq<Frame>)

  predicate ValueAllowed(stack: seq<Frame>) { stack == [] || stack[|stack| - 1] != AtKey }

  predicate Top(stack: seq<Frame>, f: Frame) { stack != [] && stack[|stack| - 1] == f }

  function Pop(stack: seq<Frame>): seq<Frame>
    requires stack != []
  {
    stack[..|stack| - 1]
  }

  // After a complete value an object expects its next key.
  function ValueEnd(stack: seq<Frame>): seq<Frame> {
    if Top(stack, AtValue) then Pop(stack) + [AtKey] else stack
  }

  // Decoder.Token: the next token, or None at the end of input or on an error.
  function Next(d: Dec): Option<(Token, Dec)> {
    if d.rest == [] then None
    else
      var t, more := d.rest[0], d.rest[1..];
      match t
      case LBracket => if ValueAllowed(d.stack) then Some((t, Dec(more, d.stack + [InArray]))) else None
      case LBrace => if ValueAllowed(d.stack) then Some((t, Dec(more, d.stack + [AtKey]))) else None
      case RBracket => if Top(d.stack, InArray) then Some((t, Dec(more, ValueEnd(Pop(d.stack))))) else None
      case RBrace => if Top(d.stack, AtKey) then Some((t, Dec(more, ValueEnd(Pop(d.stack))))) else None
      case Str(_) =>
        if Top(d.stack, AtKey) then Some((t, Dec(more, Pop(d.stack) + [AtValue])))
        else Some((t, Dec(more, ValueEnd(d.stack))))
      case Scalar => if ValueAllowed(d.stack) then Some((t, Dec(more, ValueEnd(d.stack)))) else None
      case Bad => None
  }

  // Decoder.More: another element before the closing delimiter?
  predicate More(d: Dec) { d.rest != [] && d.rest[0] != RBracket && d.rest[0] != RBrace }

  // ---- What the walkers compute -----------------------------------------

  const MAX_DEPTH := 64

  datatype Style = Dashboard | Provenance

  // The dashboard limits composites, after reading their first token; the
  // provenance scanner limits every value, before reading it.
  predicate TooDeep(style: Style, depth: nat, composite: bool) {
    if style.Dashboard? then composite && depth >= MAX_DEPTH else depth > MAX_DEPTH
  }

  function WalkValue(style: Style, d: Dec, depth: nat): (r: Option<Dec>)
    ensures r.Some? ==> |r.value.rest| < |d.rest|
    decreases |d.rest|, 1
  {
    match Next(d)
    case None => None
    case Some((t, d')) =>
      if TooDeep(style, depth, t.LBrace? || t.LBracket?) then None
      else if t.LBrace? then WalkMembers(style, d', depth, {})
      else if t.LBracket? then WalkItems(style, d', depth)
      else if t.RBrace? || t.RBracket? then None
      else Some(d')
  }

  function WalkMembers(style: Style, d: Dec, depth: nat, seen: set<string>): (r: Option<Dec>)
    ensures r.Some? ==> |r.value.rest| < |d.rest|
    decreases |d.rest|, 2
  {
    match Next(d)
    case None => None
    case Some((t, d')) =>
      if !More(d) then (if t.RBrace? then Some(d') else None)
      else if !t.Str? || t.s in seen then None
      else
        match WalkValue(style, d', depth + 1)
        case None => None
        case Some(d'') => WalkMembers(style, d'', depth, seen + {t.s})
  }

  function WalkItems(style: Style, d: Dec, depth: nat): (r: Option<Dec>)
    ensures r.Some? ==> |r.value.rest| < |d.rest|
    decreases |d.rest|, 2
  {
    if !More(d) then
      match Next(d)
      case None => None
      case Some((t, d')) => if t.RBracket? then Some(d') else None
    else
      match WalkValue(style, d, depth + 1)
      case None => None
      case Some(d') => WalkItems(style, d', depth)
  }

  // ---- The walkers themselves -------------------------------------------

  class Decoder {
    var rest: seq<Token>
    var stack: seq<Frame>

    function State(): Dec reads this { Dec(rest, stack) }

    constructor (tokens: seq<Token>) ensures State() == Dec(tokens, []) { rest, stack := tokens, []; }

    method Token() returns (t: Option<Token>)
      modifies this
      ensures t.Some? <==> Next(old(State())).Some?
      ensures t.Some? ==> Some((t.value, State())) == Next(old(State()))
      ensures t.None? ==> State() == old(State())
    {
      match Next(State()) {
        case None => return None;
        case Some((tok, d)) =>
          rest, stack := d.rest, d.stack;
          return Some(tok);
      }
    }
  }

  // walkDashboardJSONValue
  method WalkDashboardValue(decoder: Decoder, depth: nat) returns (ok: bool)
    modifies decoder
    ensures ok <==> WalkValue(Dashboard, old(decoder.State()), depth).Some?
    ensures ok ==> Some(decoder.State()) == WalkValue(Dashboard, old(decoder.State()), depth)
    decreases |decoder.rest|, 1
  {
    hide ValueEnd, Pop;
    var token := decoder.Token();
    if token.None? { return false; }
    if !(token.value.LBrace? || token.value.RBrace? || token.value.LBracket? || token.value.RBracket?) { return true; }
    if depth >= MAX_DEPTH { return false; }
    match token.value {
      case LBrace => ok := WalkDashboardObject(decoder, depth);
      case LBracket => ok := WalkDashboardArray(decoder, depth);
      case _ => return false;
    }
  }

  method WalkDashboardObject(decoder: Decoder, depth: nat) returns (ok: bool)
    modifies decoder
    ensures ok <==> WalkMembers(Dashboard, old(decoder.State()), depth, {}).Some?
    ensures ok ==> Some(decoder.State()) == WalkMembers(Dashboard, old(decoder.State()), depth, {})
    decreases |decoder.rest|, 2
  {
    hide Next, WalkValue;
    var seen: set<string> := {};
    while More(decoder.State())
      invariant |decoder.rest| <= old(|decoder.rest|)
      invariant WalkMembers(Dashboard, old(decoder.State()), depth, {}) ==
                WalkMembers(Dashboard, decoder.State(), depth, seen)
      decreases |decoder.rest|
    {
      NextConsumes(decoder.State());
      var member := decoder.Token();
      if member.None? || !member.value.Str? { return false; }
      if member.value.s in seen { return false; }
      seen := seen + {member.value.s};
      var inner := WalkDashboardValue(decoder, depth + 1);
      if !inner { return false; }
    }
    var closing := decoder.Token();
    return closing == Some(RBrace);
  }

  method WalkDashboardArray(decoder: Decoder, depth: nat) returns (ok: bool)
    modifies decoder
    ensures ok <==> WalkItems(Dashboard, old(decoder.State()), depth).Some?
    ensures ok ==> Some(decoder.State()) == WalkItems(Dashboard, old(decoder.State()), depth)
    decreases |decoder.rest|, 2
  {
    hide Next, WalkValue;
    while More(decoder.State())
      invariant |decoder.rest| <= old(|decoder.rest|)
      invariant WalkItems(Dashboard, old(decoder.State()), depth) == WalkItems(Dashboard, decoder.State(), depth)
      decreases |decoder.rest|
    {
      var inner := WalkDashboardValue(decoder, depth + 1);
      if !inner { return false; }
    }
    var closing := decoder.Token();
    return closing == Some(RBracket);
  }

  // scanJSONValue: it leaves it to the decoder to match the closing delimiter.
  method ScanProvenanceValue(decoder: Decoder, depth: nat) returns (ok: bool)
    modifies decoder
    ensures ok <==> WalkValue(Provenance, old(decoder.State()), depth).Some?
    ensures ok ==> Some(decoder.State()) == WalkValue(Provenance, old(decoder.State()), depth)
    decreases |decoder.rest|, 1
  {
    hide ValueEnd, Pop;
    if depth > MAX_DEPTH { return false; }
    var token := decoder.Token();
    if token.None? { return false; }
    if !(token.value.LBrace? || token.value.RBrace? || token.value.LBracket? || token.value.RBracket?) { return true; }
    match token.value {
      case LBrace => ok := ScanProvenanceObject(decoder, depth);
      case LBracket => ok := ScanProvenanceArray(decoder, depth);
      case _ => return false;
    }
  }

  method ScanProvenanceObject(decoder: Decoder, depth: nat) returns (ok: bool)
    requires Top(decoder.stack, AtKey)
    modifies decoder
    ensures ok <==> WalkMembers(Provenance, old(decoder.State()), depth, {}).Some?
    ensures ok ==> Some(decoder.State()) == WalkMembers(Provenance, old(decoder.State()), depth, {})
    decreases |decoder.rest|, 2
  {
    hide Next, WalkValue;
    var seen: set<string> := {};
    while More(decoder.State())
      invariant decoder.stack == old(decoder.stack)
      invariant |decoder.rest| <= old(|decoder.rest|)
      invariant WalkMembers(Provenance, old(decoder.State()), depth, {}) ==
                WalkMembers(Provenance, decoder.State(), depth, seen)
      decreases |decoder.rest|
    {
      NextConsumes(decoder.State());
      KeyKeepsStack(decoder.State());
      var member := decoder.Token();
      if member.None? || !member.value.Str? { return false; }
      if member.value.s in seen { return false; }
      seen := seen + {member.value.s};
      KeyThenValue(old(decoder.stack));
      ghost var here := decoder.State();
      var inner := ScanProvenanceValue(decoder, depth + 1);
      if !inner { return false; }
      WalkKeepsStack(Provenance, here, depth + 1);
    }
    ClosingMatchesIfAny(decoder.State());
    var closing := decoder.Token();
    return closing.Some?;
  }

  method ScanProvenanceArray(decoder: Decoder, depth: nat) returns (ok: bool)
    requires Top(decoder.stack, InArray)
    modifies decoder
    ensures ok <==> WalkItems(Provenance, old(decoder.State()), depth).Some?
    ensures ok ==> Some(decoder.State()) == WalkItems(Provenance, old(decoder.State()), depth)
    decreases |decoder.rest|, 2
  {
    hide Next, WalkValue;
    while More(decoder.State())
      invariant decoder.stack == old(decoder.stack)
      invariant |decoder.rest| <= old(|decoder.rest|)
      invariant WalkItems(Provenance, old(decoder.State()), depth) == WalkItems(Provenance, decoder.State(), depth)
      decreases |decoder.rest|
    {
      ghost var here := decoder.State();
      var inner := ScanProvenanceValue(decoder, depth + 1);
      if !inner { return false; }
      WalkKeepsStack(Provenance, here, depth + 1);
    }
    ClosingMatchesIfAny(decoder.State());
    var closing := decoder.Token();
    return closing.Some?;
  }

  lemma NextConsumes(d: Dec)
    ensures Next(d).Some? ==> |Next(d).value.1.rest| == |d.rest| - 1
  {
  }

  // At a key position a string is a key, and a value follows it.
  lemma KeyKeepsStack(d: Dec)
    requires Top(d.stack, AtKey)
    ensures Next(d).Some? && Next(d).value.0.Str? ==> Next(d).value.1.stack == Pop(d.stack) + [AtValue]
  {
  }

  lemma KeyThenValue(stack: seq<Frame>)
    requires Top(stack, AtKey)
    ensures ValueAllowed(Pop(stack) + [AtValue]) && ValueEnd(Pop(stack) + [AtValue]) == stack
  {
  }

  // Where no element follows, the decoder yields the delimiter that closes the
  // innermost composite, or nothing.
  lemma ClosingMatchesIfAny(d: Dec)
    requires !More(d)
    ensures Next(d).Some? && Top(d.stack, AtKey) ==> Next(d).value.0 == RBrace
    ensures Next(d).Some? && Top(d.stack, InArray) ==> Next(d).value.0 == RBracket
  {
  }

  // What one token does to the input and the stack.
  lemma NextTakesFirst(d: Dec)
    requires Next(d).Some?
    ensures var (t, d') := Next(d).value;
            && d.rest == [t] + d'.rest && !t.Bad?
            && (t.LBrace? ==> d'.stack == d.stack + [AtKey]) && (t.LBracket? ==> d'.stack == d.stack + [InArray])
            && (t.RBrace? ==> Top(d.stack, AtKey) && d'.stack == ValueEnd(Pop(d.stack)))
            && (t.Str? && Top(d.stack, AtKey) ==> d'.stack == Pop(d.stack) + [AtValue])
  {
  }

  // A walked value ends where one value has been added.
  lemma {:induction false} WalkKeepsStack(style: Style, d: Dec, depth: nat)
    requires ValueAllowed(d.stack) && WalkValue(style, d, depth).Some?
    ensures WalkValue(style, d, depth).value.stack == ValueEnd(d.stack)
    decreases |d.rest|, 1
  {
    var (t, d') := Next(d).value;
    if t.LBrace? {
      MembersKeepStack(style, d', depth, {});
      assert Pop(d.stack + [AtKey]) == d.stack;
    } else if t.LBracket? {
      ItemsKeepStack(style, d', depth);
      assert Pop(d.stack + [InArray]) == d.stack;
    }
  }

  lemma {:induction false} MembersKeepStack(style: Style, d: Dec, depth: nat, seen: set<string>)
    requires Top(d.stack, AtKey) && WalkMembers(style, d, depth, seen).Some?
    ensures WalkMembers(style, d, depth, seen).value.stack == ValueEnd(Pop(d.stack))
    decreases |d.rest|, 2
  {
    hide Next, WalkValue;
    var (t, d') := Next(d).value;
    NextTakesFirst(d);
    if More(d) {
      KeyThenValue(d.stack);
      WalkKeepsStack(style, d', depth + 1);
      var d'' := WalkValue(style, d', depth + 1).value;
      assert d''.stack == d.stack;
      MembersKeepStack(style, d'', depth, seen + {t.s});
    }
  }

  lemma {:induction false} ItemsKeepStack(style: Style, d: Dec, depth: nat)
    requires Top(d.stack, InArray) && WalkItems(style, d, depth).Some?
    ensures WalkItems(style, d, depth).value.stack == ValueEnd(Pop(d.stack))
    decreases |d.rest|, 2
  {
    if More(d) {
      WalkKeepsStack(style, d, depth + 1);
      ItemsKeepStack(style, WalkValue(style, d, depth + 1).value, depth);
    }
  }
}
