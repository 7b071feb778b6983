// What the walkers accept, in terms of JSON values instead of tokens.
module JsonDocuments {
  import opened Optional
  import opened JsonWalkers

  // A JSON value; Atom(None) is a number, boolean or null, Atom(Some(s)) a string.
  datatype Value = Atom(str: Option<string>) | Arr(items: seq<Value>) | Obj(members: seq<Member>)
  datatype Member = Member(name: string, value: Value)

  function Tokens(v: Value): seq<Token>
    decreases v, 1
  {
    match v
    case Atom(None) => [Scalar]
    case Atom(Some(s)) => [Str(s)]
    case Arr(items) => [LBracket] + ItemTokens(items) + [RBracket]
    case Obj(members) => [LBrace] + MemberTokens(members) + [RBrace]
  }

  function ItemTokens(items: seq<Value>): seq<Token>
    decreases items, 0
  {
    if items == [] then [] else Tokens(items[0]) + ItemTokens(items[1..])
  }

  function MemberTokens(members: seq<Member>): seq<Token>
    decreases members, 0
  {
    if members == [] then [] else [Str(members[0].name)] + Tokens(members[0].value) + MemberTokens(members[1..])
  }

  predicate DistinctNames(members: seq<Member>) {
    forall i, j :: 0 <= i < j < |members| ==> members[i].name != members[j].name
  }

  // No object anywhere in the value repeats a member name.
  predicate Unique(v: Value) {
    match v
    case Atom(_) => true
    case Arr(items) => forall i :: 0 <= i < |items| ==> Unique(items[i])
    case Obj(members) => DistinctNames(members) && forall i :: 0 <= i < |members| ==> Unique(members[i].value)
  }

  // Nesting stays within the walker's own limit.
  predicate Within(style: Style, v: Value, depth: nat)
    decreases v
  {
    match v
    case Atom(_) => !TooDeep(style, depth, false)
    case Arr(items) =>
      !TooDeep(style, depth, true) && forall i :: 0 <= i < |items| ==> Within(style, items[i], depth + 1)
    case Obj(members) =>
      !TooDeep(style, depth, true) && forall i :: 0 <= i < |members| ==> Within(style, members[i].value, depth + 1)
  }

  predicate Fine(style: Style, v: Value, depth: nat) { Unique(v) && Within(style, v, depth) }

  predicate FineItems(style: Style, items: seq<Value>, depth: nat) {
    forall i :: 0 <= i < |items| ==> Fine(style, items[i], depth)
  }

  predicate FineMembers(style: Style, members: seq<Member>, depth: nat, seen: set<string>) {
    && DistinctNames(members)
    && (forall i :: 0 <= i < |members| ==> members[i].name !in seen)
    && (forall i :: 0 <= i < |members| ==> Fine(style, members[i].value, depth))
  }

  lemma FineArr(style: Style, items: seq<Value>, depth: nat)
    ensures Fine(style, Arr(items), depth) <==> !TooDeep(style, depth, true) && FineItems(style, items, depth + 1)
  {
  }

  lemma FineObj(style: Style, members: seq<Member>, depth: nat)
    ensures Fine(style, Obj(members), depth) <==> !TooDeep(style, depth, true) && FineMembers(style, members, depth + 1, {})
  {
  }

  lemma FineItemsCons(style: Style, items: seq<Value>, depth: nat)
    requires items != []
    ensures FineItems(style, items, depth) <==> Fine(style, items[0], depth) && FineItems(style, items[1..], depth)
  {
    hide Fine;
    assert forall i :: 1 <= i < |items| ==> items[i] == items[1..][i - 1];
  }

  lemma FineMembersCons(style: Style, members: seq<Member>, depth: nat, seen: set<string>)
    requires members != []
    ensures FineMembers(style, members, depth, seen) <==>
            && members[0].name !in seen && Fine(style, members[0].value, depth)
            && FineMembers(style, members[1..], depth, seen + {members[0].name})
  {
    hide Fine;
    var more := members[1..];
    assert forall i :: 1 <= i < |members| ==> members[i] == more[i - 1];
    assert forall i :: 0 <= i < |more| ==> more[i] == members[i + 1];
    if members[0].name !in seen && FineMembers(style, more, depth, seen + {members[0].name}) {
      forall i, j | 0 <= i < j < |members| ensures members[i].name != members[j].name {
        if i == 0 {
          assert more[j - 1].name !in seen + {members[0].name};
        } else {
          assert more[i - 1].name != more[j - 1].name;
        }
      }
      forall i | 0 <= i < |members| ensures members[i].name !in seen {
        if i > 0 {
          assert more[i - 1].name !in seen + {members[0].name};
        }
      }
    }
  }

  lemma TokensStart(v: Value)
    ensures Tokens(v) != [] && Tokens(v)[0] != RBrace && Tokens(v)[0] != RBracket
  {
  }

  // ---- On a well-formed value the walkers decide exactly Fine ------------

  lemma {:induction false} WalkDecides(style: Style, v: Value, rest: seq<Token>, stack: seq<Frame>, depth: nat)
    requires ValueAllowed(stack)
    ensures WalkValue(style, Dec(Tokens(v) + rest, stack), depth) ==
            if Fine(style, v, depth) then Some(Dec(rest, ValueEnd(stack))) else None
    decreases v, 1
  {
    hide Fine, Next, WalkItems, WalkMembers, ItemTokens, MemberTokens, ValueEnd;
    match v {
      case Atom(_) =>
        assert Tokens(v) + rest == [Tokens(v)[0]] + rest;
        ReadAtom(Tokens(v)[0], rest, stack);
        FineAtom(style, v, depth);
      case Arr(_) => ArrayDecides(style, v, rest, stack, depth);
      case Obj(_) => ObjectDecides(style, v, rest, stack, depth);
    }
  }

  lemma {:induction false} ArrayDecides(style: Style, v: Value, rest: seq<Token>, stack: seq<Frame>, depth: nat)
    requires ValueAllowed(stack) && v.Arr?
    ensures WalkValue(style, Dec(Tokens(v) + rest, stack), depth) ==
            if Fine(style, v, depth) then Some(Dec(rest, ValueEnd(stack))) else None
    decreases v, 0
  {
    hide Fine, Next, WalkItems, WalkMembers, ItemTokens, MemberTokens, ValueEnd;
    var more := ItemTokens(v.items) + [RBracket] + rest;
    assert Tokens(v) + rest == [LBracket] + more;
    ReadOpen(LBracket, more, stack);
    assert Pop(stack + [InArray]) == stack;
    ItemsDecide(style, v.items, rest, stack + [InArray], depth);
    FineArr(style, v.items, depth);
  }

  lemma {:induction false} ObjectDecides(style: Style, v: Value, rest: seq<Token>, stack: seq<Frame>, depth: nat)
    requires ValueAllowed(stack) && v.Obj?
    ensures WalkValue(style, Dec(Tokens(v) + rest, stack), depth) ==
            if Fine(style, v, depth) then Some(Dec(rest, ValueEnd(stack))) else None
    decreases v, 0
  {
    hide Fine, Next, WalkItems, WalkMembers, ItemTokens, MemberTokens, ValueEnd;
    var more := MemberTokens(v.members) + [RBrace] + rest;
    assert Tokens(v) + rest == [LBrace] + more;
    ReadOpen(LBrace, more, stack);
    assert Pop(stack + [AtKey]) == stack;
    MembersDecide(style, v.members, rest, stack + [AtKey], depth, {});
    FineObj(style, v.members, depth);
  }

  lemma ReadAtom(t: Token, more: seq<Token>, stack: seq<Frame>)
    requires ValueAllowed(stack) && (t.Str? || t.Scalar?)
    ensures Next(Dec([t] + more, stack)) == Some((t, Dec(more, ValueEnd(stack))))
  {
    assert ([t] + more)[1..] == more;
  }

  lemma ReadOpen(t: Token, more: seq<Token>, stack: seq<Frame>)
    requires ValueAllowed(stack) && (t.LBrace? || t.LBracket?)
    ensures Next(Dec([t] + more, stack)) ==
            Some((t, Dec(more, stack + [if t.LBrace? then AtKey else InArray])))
  {
    assert ([t] + more)[1..] == more;
  }

  lemma FineAtom(style: Style, v: Value, depth: nat)
    requires v.Atom?
    ensures Fine(style, v, depth) <==> !TooDeep(style, depth, false)
  {
  }

  lemma {:induction false} ItemsDecide(style: Style, items: seq<Value>, rest: seq<Token>, stack: seq<Frame>, depth: nat)
    requires Top(stack, InArray)
    ensures WalkItems(style, Dec(ItemTokens(items) + [RBracket] + rest, stack), depth) ==
            if FineItems(style, items, depth + 1) then Some(Dec(rest, ValueEnd(Pop(stack)))) else None
    decreases items, 0
  {
    hide FineItems, Fine, WalkValue, Pop;
    var d := Dec(ItemTokens(items) + [RBracket] + rest, stack);
    if items == [] {
      assert d.rest == [RBracket] + rest && d.rest[1..] == rest;
      assert FineItems(style, items, depth + 1) by { NoItems(style, depth + 1); }
    } else {
      var after := ItemTokens(items[1..]) + [RBracket] + rest;
      assert d.rest == Tokens(items[0]) + after;
      TokensStart(items[0]);
      assert d.rest[0] == Tokens(items[0])[0];
      WalkDecides(style, items[0], after, stack, depth + 1);
      ItemsDecide(style, items[1..], rest, stack, depth);
      FineItemsCons(style, items, depth + 1);
    }
  }

  lemma NoItems(style: Style, depth: nat)
    ensures FineItems(style, [], depth) && FineMembers(style, [], depth, {})
  {
  }

  lemma {:induction false} MembersDecide(style: Style, members: seq<Member>, rest: seq<Token>, stack: seq<Frame>, depth: nat, seen: set<string>)
    requires Top(stack, AtKey)
    ensures WalkMembers(style, Dec(MemberTokens(members) + [RBrace] + rest, stack), depth, seen) ==
            if FineMembers(style, members, depth + 1, seen) then Some(Dec(rest, ValueEnd(Pop(stack)))) else None
    decreases members, 0
  {
    hide Fine, WalkValue, FineMembers;
    var d := Dec(MemberTokens(members) + [RBrace] + rest, stack);
    if members == [] {
      assert d.rest == [RBrace] + rest && d.rest[1..] == rest;
      assert FineMembers(style, members, depth + 1, seen) by { NoMembers(style, depth + 1, seen); }
    } else {
      var m := members[0];
      var after := MemberTokens(members[1..]) + [RBrace] + rest;
      assert d.rest == [Str(m.name)] + (Tokens(m.value) + after);
      assert d.rest[1..] == Tokens(m.value) + after;
      var inside := Pop(stack) + [AtValue];
      KeyThenValue(stack);
      assert Next(d) == Some((Str(m.name), Dec(Tokens(m.value) + after, inside)));
      WalkDecides(style, m.value, after, inside, depth + 1);
      MembersDecide(style, members[1..], rest, stack, depth, seen + {m.name});
      FineMembersCons(style, members, depth + 1, seen);
    }
  }

  lemma NoMembers(style: Style, depth: nat, seen: set<string>)
    ensures FineMembers(style, [], depth, seen)
  {
  }

  // ---- And they accept nothing that is not a value ----------------------

  lemma {:induction false} WalkReadsAValue(style: Style, d: Dec, depth: nat) returns (v: Value)
    requires WalkValue(style, d, depth).Some? && ValueAllowed(d.stack)
    ensures d.rest == Tokens(v) + WalkValue(style, d, depth).value.rest
    decreases |d.rest|, 1
  {
    hide Next, WalkItems, WalkMembers, ItemTokens, MemberTokens;
    var (t, d') := Next(d).value;
    NextTakesFirst(d);
    if t.LBrace? {
      var members := WalkReadsMembers(style, d', depth, {});
      v := Obj(members);
    } else if t.LBracket? {
      var items := WalkReadsItems(style, d', depth);
      v := Arr(items);
    } else {
      v := Atom(if t.Str? then Some(t.s) else None);
    }
  }

  lemma {:induction false} WalkReadsItems(style: Style, d: Dec, depth: nat) returns (items: seq<Value>)
    requires WalkItems(style, d, depth).Some? && Top(d.stack, InArray)
    ensures d.rest == ItemTokens(items) + [RBracket] + WalkItems(style, d, depth).value.rest
    decreases |d.rest|, 2
  {
    hide WalkValue;
    if !More(d) {
      items := [];
    } else {
      var v := WalkReadsAValue(style, d, depth + 1);
      var d' := WalkValue(style, d, depth + 1).value;
      WalkKeepsStack(style, d, depth + 1);
      assert d'.stack == d.stack;
      var more := WalkReadsItems(style, d', depth);
      items := [v] + more;
      assert items[1..] == more;
    }
  }

  lemma {:induction false} WalkReadsMembers(style: Style, d: Dec, depth: nat, seen: set<string>) returns (members: seq<Member>)
    requires WalkMembers(style, d, depth, seen).Some? && Top(d.stack, AtKey)
    ensures d.rest == MemberTokens(members) + [RBrace] + WalkMembers(style, d, depth, seen).value.rest
    decreases |d.rest|, 2
  {
    hide WalkValue, Next, Tokens;
    var (t, d') := Next(d).value;
    NextTakesFirst(d);
    if !More(d) {
      members := [];
    } else {
      KeyThenValue(d.stack);
      var v := WalkReadsAValue(style, d', depth + 1);
      var d'' := WalkValue(style, d', depth + 1).value;
      WalkKeepsStack(style, d', depth + 1);
      var more := WalkReadsMembers(style, d'', depth, seen + {t.s});
      members := [Member(t.s, v)] + more;
      assert members[1..] == more;
    }
  }

  // A document is accepted when one value is walked and no token follows.
  predicate Accepts(style: Style, ts: seq<Token>) {
    var r := WalkValue(style, Dec(ts, []), 0);
    r.Some? && r.value.rest == []
  }

  // Accepted documents are exactly the JSON values without repeated names whose
  // nesting is within the limit.
  lemma AcceptsExactly(style: Style, ts: seq<Token>)
    ensures Accepts(style, ts) <==> exists v :: ts == Tokens(v) && Fine(style, v, 0)
  {
    hide Fine, WalkValue;
    if Accepts(style, ts) {
      var v := WalkReadsAValue(style, Dec(ts, []), 0);
      assert Tokens(v) + [] == Tokens(v);
      WalkDecides(style, v, [], [], 0);
    }
    if exists v :: ts == Tokens(v) && Fine(style, v, 0) {
      var v :| ts == Tokens(v) && Fine(style, v, 0);
      assert Tokens(v) + [] == Tokens(v);
      WalkDecides(style, v, [], [], 0);
    }
  }

  // ---- How the two limits compare ---------------------------------------

  // An empty composite sits exactly at the maximum depth.
  predicate DeepEmpty(v: Value, depth: nat)
    decreases v
  {
    match v
    case Atom(_) => false
    case Arr(items) =>
      (depth == MAX_DEPTH && items == []) || exists i :: 0 <= i < |items| && DeepEmpty(items[i], depth + 1)
    case Obj(members) =>
      (depth == MAX_DEPTH && members == []) || exists i :: 0 <= i < |members| && DeepEmpty(members[i].value, depth + 1)
  }

  lemma {:induction false} LimitsDifferOnDeepEmpties(v: Value, depth: nat)
    requires depth <= MAX_DEPTH
    ensures Within(Dashboard, v, depth) <==> Within(Provenance, v, depth) && !DeepEmpty(v, depth)
    decreases v
  {
    match v {
      case Atom(_) =>
      case Arr(items) =>
        if depth < MAX_DEPTH {
          forall i | 0 <= i < |items|
            ensures Within(Dashboard, items[i], depth + 1) <==>
                    Within(Provenance, items[i], depth + 1) && !DeepEmpty(items[i], depth + 1)
          {
            LimitsDifferOnDeepEmpties(items[i], depth + 1);
          }
        } else if items != [] {
          assert !Within(Provenance, items[0], depth + 1) by { BelowTheLimit(items[0], depth + 1); }
        }
      case Obj(members) =>
        if depth < MAX_DEPTH {
          forall i | 0 <= i < |members|
            ensures Within(Dashboard, members[i].value, depth + 1) <==>
                    Within(Provenance, members[i].value, depth + 1) && !DeepEmpty(members[i].value, depth + 1)
          {
            LimitsDifferOnDeepEmpties(members[i].value, depth + 1);
          }
        } else if members != [] {
          assert !Within(Provenance, members[0].value, depth + 1) by { BelowTheLimit(members[0].value, depth + 1); }
        }
    }
  }

  lemma BelowTheLimit(v: Value, depth: nat)
    requires depth > MAX_DEPTH
    ensures !Within(Provenance, v, depth)
  {
  }

  // n arrays around an empty one.
  function Nested(n: nat): Value { if n == 0 then Arr([]) else Arr([Nested(n - 1)]) }

  lemma {:induction false} NestedIsDeep(n: nat, depth: nat)
    requires n + depth == MAX_DEPTH
    ensures Unique(Nested(n)) && Within(Provenance, Nested(n), depth) && DeepEmpty(Nested(n), depth)
  {
    if n > 0 {
      NestedIsDeep(n - 1, depth + 1);
      assert Nested(n).items[0] == Nested(n - 1);
    }
  }

  // Every document the dashboard accepts the provenance scanner accepts ...
  lemma DashboardIsStricter(ts: seq<Token>)
    ensures Accepts(Dashboard, ts) ==> Accepts(Provenance, ts)
  {
    hide WalkValue, Tokens, Within, Unique;
    if Accepts(Dashboard, ts) {
      AcceptsExactly(Dashboard, ts);
      var v :| ts == Tokens(v) && Fine(Dashboard, v, 0);
      LimitsDifferOnDeepEmpties(v, 0);
      assert Fine(Provenance, v, 0);
      AcceptsExactly(Provenance, ts);
    }
  }

  // ... but not the other way round.
  lemma SomeDocumentsSplitTheWalkers(n: nat)
    requires n == MAX_DEPTH
    ensures Accepts(Provenance, Tokens(Nested(n))) && !Accepts(Dashboard, Tokens(Nested(n)))
  {
    hide WalkValue, Tokens, Within, Unique, Nested, DeepEmpty;
    NestedIsDeep(n, 0);
    LimitsDifferOnDeepEmpties(Nested(n), 0);
    assert Tokens(Nested(n)) + [] == Tokens(Nested(n));
    WalkDecides(Dashboard, Nested(n), [], [], 0);
    WalkDecides(Provenance, Nested(n), [], [], 0);
  }

  // ---- The limits as heights ---------------------------------------------

  function Max(a: nat, b: nat): nat { if a < b then b else a }

  // How many composites are nested, and how many steps down the deepest value is.
  function Height(v: Value): nat
    decreases v, 1
  {
    match v
    case Atom(_) => 0
    case Arr(items) => 1 + ItemsHeight(items)
    case Obj(members) => 1 + MembersHeight(members)
  }

  function ItemsHeight(items: seq<Value>): nat
    decreases items, 0
  {
    if items == [] then 0 else Max(Height(items[0]), ItemsHeight(items[1..]))
  }

  function MembersHeight(members: seq<Member>): nat
    decreases members, 0
  {
    if members == [] then 0 else Max(Height(members[0].value), MembersHeight(members[1..]))
  }

  function Reach(v: Value): nat
    decreases v, 1
  {
    match v
    case Atom(_) => 0
    case Arr(items) => if items == [] then 0 else 1 + ItemsReach(items)
    case Obj(members) => if members == [] then 0 else 1 + MembersReach(members)
  }

  function ItemsReach(items: seq<Value>): nat
    decreases items, 0
  {
    if items == [] then 0 else Max(Reach(items[0]), ItemsReach(items[1..]))
  }

  function MembersReach(members: seq<Member>): nat
    decreases members, 0
  {
    if members == [] then 0 else Max(Reach(members[0].value), MembersReach(members[1..]))
  }

  lemma {:induction false} WithinExactly(v: Value, depth: nat)
    requires depth <= 64
    ensures Within(Dashboard, v, depth) <==> depth + Height(v) <= 64
    ensures Within(Provenance, v, depth) <==> depth + Reach(v) <= 64
    decreases v, 1
  {
    match v {
      case Atom(_) =>
      case Arr(items) =>
        if depth < 64 {
          ItemsWithinExactly(items, depth + 1);
        } else if items != [] {
          BelowTheLimit(items[0], depth + 1);
          assert !Within(Provenance, items[0], depth + 1);
        }
      case Obj(members) =>
        if depth < 64 {
          MembersWithinExactly(members, depth + 1);
        } else if members != [] {
          BelowTheLimit(members[0].value, depth + 1);
          assert !Within(Provenance, members[0].value, depth + 1);
        }
    }
  }

  lemma {:induction false} ItemsWithinExactly(items: seq<Value>, depth: nat)
    requires depth <= 64
    ensures (forall i :: 0 <= i < |items| ==> Within(Dashboard, items[i], depth)) <==> depth + ItemsHeight(items) <= 64
    ensures (forall i :: 0 <= i < |items| ==> Within(Provenance, items[i], depth)) <==> depth + ItemsReach(items) <= 64
    decreases items, 0
  {
    if items != [] {
      WithinExactly(items[0], depth);
      ItemsWithinExactly(items[1..], depth);
      assert forall i :: 1 <= i < |items| ==> items[i] == items[1..][i - 1];
      assert forall i :: 0 <= i < |items[1..]| ==> items[1..][i] == items[i + 1];
    }
  }

  lemma {:induction false} MembersWithinExactly(members: seq<Member>, depth: nat)
    requires depth <= 64
    ensures (forall i :: 0 <= i < |members| ==> Within(Dashboard, members[i].value, depth)) <==> depth + MembersHeight(members) <= 64
    ensures (forall i :: 0 <= i < |members| ==> Within(Provenance, members[i].value, depth)) <==> depth + MembersReach(members) <= 64
    decreases members, 0
  {
    if members != [] {
      WithinExactly(members[0].value, depth);
      MembersWithinExactly(members[1..], depth);
      assert forall i :: 1 <= i < |members| ==> members[i] == members[1..][i - 1];
      assert forall i :: 0 <= i < |members[1..]| ==> members[1..][i] == members[i + 1];
    }
  }

  // In full: one value, no object of which repeats a name, with at most 64 nested
  // composites for the dashboard, at most 64 steps down for the scanner.
  lemma AcceptedDocuments(ts: seq<Token>)
    ensures Accepts(Dashboard, ts) <==> exists v :: ts == Tokens(v) && Unique(v) && Height(v) <= 64
    ensures Accepts(Provenance, ts) <==> exists v :: ts == Tokens(v) && Unique(v) && Reach(v) <= 64
  {
    hide Tokens, Unique, Within, Height, Reach, Accepts;
    AcceptsExactly(Dashboard, ts);
    AcceptsExactly(Provenance, ts);
    forall v ensures Fine(Dashboard, v, 0) <==> Unique(v) && Height(v) <= 64 { WithinExactly(v, 0); }
    forall v ensures Fine(Provenance, v, 0) <==> Unique(v) && Reach(v) <= 64 { WithinExactly(v, 0); }
  }
}
