/** Reading back what the printer wrote. */
module RoundTrip {
  import opened Tokens
  import opened Precedence
  import opened Grammar
  import opened Printer
  import opened Seqs

  /** The token at the cursor cannot prolong the operand before it. */
  predicate Stops(ts: seq<Token>) {
    var t := Current(ts);
    t != Token.Mark(Bracket) && t != Token.Mark(Dot) && t != Token.Mark(Paren)
  }

  lemma Step(x: Token, k: seq<Token>)
    requires !x.Eof?
    ensures Current([x] + k) == x && Advance([x] + k) == k
  {
  }

  lemma Begins(r: seq<Token>, k: seq<Token>)
    requires Startable(r)
    ensures Current(r + k) == r[0] && Starter(Current(r + k))
  {
  }

  // ----- one step of each routine -----

  lemma NegativeStep(ts: seq<Token>)
    requires Current(ts) == Token.Mark(Minus) && Current(Advance(ts)).Int?
    ensures Primary(ts, false, false) ==
      Ok((Number(-(Current(Advance(ts)).n as int)), true), Advance(Advance(ts)))
  {
  }

  lemma SignedStops(ts: seq<Token>, t: Tree, k: seq<Token>)
    requires Primary(ts, false, false) == Ok((t, true), k) && Stops(k)
    ensures Links(ts, None, false) == Ok(t, k)
  {
    AfterStops(k, t, None, true);
  }

  lemma LinksStep(ts: seq<Token>, chain: Option<seq<Tree>>, t: Tree, k: seq<Token>)
    requires Primary(ts, chain.Some?, false) == Ok((t, false), k)
    ensures Links(ts, chain, false) == AfterPrimary(k, t, chain, false)
  {
  }

  lemma AfterStops(k: seq<Token>, t: Tree, chain: Option<seq<Tree>>, signed: bool)
    requires Stops(k)
    ensures AfterPrimary(k, t, chain, signed) == Ok(if chain.Some? then Chain(chain.value + [t]) else t, k)
  {
  }

  lemma AfterDot(k: seq<Token>, t: Tree, chain: Option<seq<Tree>>)
    requires Current(k) == Token.Mark(Dot) && Current(Advance(k)) != Eof
    ensures AfterPrimary(k, t, chain, false) ==
      Links(Advance(k), Some((if chain.Some? then chain.value else []) + [t]), false)
  {
  }

  lemma AfterBracket(k: seq<Token>, t: Tree, chain: Option<seq<Tree>>, i: Tree, rest: seq<Token>)
    requires Current(k) == Token.Mark(Bracket) && Expression(Advance(k), Index) == Ok(i, rest)
    ensures AfterPrimary(k, t, chain, false) ==
      AfterPrimary(Advance(rest), Operation(Bracket, if chain.Some? then Chain(chain.value + [t]) else t, i), None,
                   false)
  {
    IndexesStep(k, t, chain, i, rest);
  }

  lemma IndexesStep(k: seq<Token>, t: Tree, chain: Option<seq<Tree>>, i: Tree, rest: seq<Token>)
    requires Current(k) == Token.Mark(Bracket) && Expression(Advance(k), Index) == Ok(i, rest)
    ensures Indexes(k, t, chain) ==
      Indexes(Advance(rest), Operation(Bracket, if chain.Some? then Chain(chain.value + [t]) else t, i), None)
  {
  }

  lemma FlatStep(ts: seq<Token>, t: Tree, k: seq<Token>, p: Purpose)
    requires Operand(ts) == Ok(t, k)
    ensures Flat(ts, p) == Prepend(Leaf(t), More(k, p))
  {
    if More(k, p).Ok? { assert [] + More(k, p).value.1 == More(k, p).value.1; }
  }

  lemma ListStep(ts: seq<Token>, close: Mark, p: Purpose, t: Tree, rest: seq<Token>)
    requires Current(ts) != Token.Mark(close) && Expression(ts, p) == Ok(t, rest)
    requires Current(rest) != Eof && (Current(rest) == Token.Mark(Comma) ==> Current(Advance(rest)) != Eof)
    ensures List(ts, close, p) ==
      match List(if Current(rest) == Token.Mark(Comma) then Advance(rest) else rest, close, p)
      case Fail => Fail
      case Ok(more, rest') => Ok([t] + more, rest')
  {
  }

  lemma EnclosedStep(ts: seq<Token>, t: Tree, k: seq<Token>, inChain: bool)
    requires Current(ts) == Token.Mark(Paren)
    requires Expression(Advance(ts), Inner) == Ok(t, k)
    ensures Primary(ts, inChain, false) == Ok((t, false), Advance(k))
  {
  }

  lemma PlainStep(ts: seq<Token>, inChain: bool)
    requires Starter(Current(ts)) && Current(ts) != Token.Mark(Paren) && Current(ts) != Token.Mark(Minus)
    ensures Primary(ts, inChain, false) == Plain(ts, inChain, false)
  {
  }

  lemma CallStep(ts: seq<Token>, args: seq<Tree>, rest: seq<Token>, inChain: bool)
    requires Current(ts).Symbol? && Current(Advance(ts)) == Token.Mark(Paren)
    requires List(Advance(Advance(ts)), EndParen, Argument) == Ok(args, rest)
    requires Current(rest) == Token.Mark(EndParen)
    ensures Plain(ts, inChain, false) == Ok((Call(Current(ts).name, args), false), Advance(rest))
  {
  }

  lemma ArrayStep(ts: seq<Token>, items: seq<Tree>, rest: seq<Token>, inChain: bool)
    requires Current(ts) == Token.Mark(Bracket)
    requires List(Advance(ts), EndBracket, Element) == Ok(items, rest)
    requires Current(rest) == Token.Mark(EndBracket)
    ensures Plain(ts, inChain, false) == Ok((ArrayOf(items), false), Advance(rest))
  {
  }

  // ----- infix structure -----

  /** The infix tree of t, with a leaf wherever the printer puts parentheses. */
  function SideShape(t: Tree, p: int): (s: Shape<Tree>)
    ensures Canonical(s) && RootAtLeast(s, p) && Erase(s) == t
  {
    if Infix(t) && Priority(t.op) >= p then
      Node(t.op, SideShape(t.left, Priority(t.op)), SideShape(t.right, Priority(t.op) + 1))
    else Leaf(t)
  }

  function Prepend(s: Shape<Tree>, r: Parsed<(seq<Tree>, seq<Mark>)>): Parsed<(seq<Tree>, seq<Mark>)> {
    match r
    case Fail => Fail
    case Ok((ts, ops), rest) => Ok((Operands(s) + ts, Operators(s) + ops), rest)
  }

  lemma OperatorStays(op: Mark, k: seq<Token>, p: Purpose)
    requires Writable(op) && Starter(Current(k))
    ensures !Ends(p, [Token.Mark(op)] + k) && IsInfix(Token.Mark(op))
  {
    Step(Token.Mark(op), k);
  }

  /** An operator between two printed operands never ends an expression. */
  lemma OperatorGoesOn(op: Mark, k: seq<Token>, p: Purpose)
    requires Writable(op) && Starter(Current(k))
    ensures More([Token.Mark(op)] + k, p) ==
      match Flat(k, p)
      case Fail => Fail
      case Ok((ts, ops), rest) => Ok((ts, [op] + ops), rest)
  {
    Step(Token.Mark(op), k);
    OperatorStays(op, k, p);
  }

  lemma PrependNode(l: Shape<Tree>, op: Mark, r: Shape<Tree>, more: Parsed<(seq<Tree>, seq<Mark>)>)
    ensures Prepend(Node(op, l, r), more) ==
      match Prepend(r, more)
      case Fail => Fail
      case Ok((ts, ops), rest) => Prepend(l, Ok((ts, [op] + ops), rest))
  {
    if more.Ok? {
      Assoc(Operands(l), Operands(r), more.value.0);
      Assoc(Operators(l) + [op], Operators(r), more.value.1);
      Assoc(Operators(l), [op], Operators(r) + more.value.1);
    }
  }

  lemma {:induction false} SideParses(t: Tree, b: int, k: seq<Token>, p: Purpose)
    requires WellFormed(t) && Stops(k)
    ensures Flat(Side(t, b) + k, p) == Prepend(SideShape(t, b), More(k, p))
    decreases t, if Infix(t) && Priority(t.op) >= b then 0 else 4
  {
    if Infix(t) && Priority(t.op) >= b {
      var l, r := Side(t.left, Priority(t.op)), Side(t.right, Priority(t.op) + 1);
      var o := [Token.Mark(t.op)];
      Assoc(l + o, r, k);
      Assoc(l, o, r + k);
      Step(Token.Mark(t.op), r + k);
      SideParses(t.left, Priority(t.op), o + (r + k), p);
      SideParses(t.right, Priority(t.op) + 1, k, p);
      Begins(r, k);
      OperatorGoesOn(t.op, r + k, p);
      PrependNode(SideShape(t.left, Priority(t.op)), t.op, SideShape(t.right, Priority(t.op) + 1), More(k, p));
    } else {
      ItemParses(t, k);
      FlatStep(Item(t) + k, t, k, p);
    }
  }

  /** The round trip: a printed tree, followed by anything that ends the expression, is read
      back as the same tree, and reading stops exactly there. */
  lemma {:induction false} PrintParses(t: Tree, k: seq<Token>, p: Purpose)
    requires WellFormed(t) && Ends(p, k)
    ensures Expression(Print(t) + k, p) == Ok(t, k)
    decreases t, if Infix(t) then 1 else 5
  {
    SideParses(t, 0, k, p);
    ShapeIsBuilt(t, k);
  }

  lemma ShapeIsBuilt(t: Tree, k: seq<Token>)
    ensures var s := SideShape(t, 0);
      && Prepend(s, Ok(([], []), k)) == Ok((Operands(s), Operators(s)), k)
      && Erase(Build(Operands(s), Operators(s))) == t
  {
    var s := SideShape(t, 0);
    assert Operands(s) + [] == Operands(s) && Operators(s) + [] == Operators(s);
    BuildIsTheCanonicalTree(Operands(s), Operators(s), s);
  }

  // ----- any row of operands and operators -----

  /** Operands with operators between them, and no parentheses but those around an operand. */
  function Row(os: seq<Tree>, ops: seq<Mark>): (r: seq<Token>)
    requires |os| == |ops| + 1 && forall t | t in os :: WellFormed(t)
    ensures Startable(r)
    decreases |ops|
  {
    if ops == [] then Item(os[0]) else Item(os[0]) + [Token.Mark(ops[0])] + Row(os[1..], ops[1..])
  }

  lemma {:induction false} RowParses(os: seq<Tree>, ops: seq<Mark>, k: seq<Token>, p: Purpose)
    requires |os| == |ops| + 1 && (forall t | t in os :: WellFormed(t)) && (forall op | op in ops :: Writable(op))
    requires Ends(p, k)
    ensures Flat(Row(os, ops) + k, p) == Ok((os, ops), k)
    decreases |ops|
  {
    assert os == [os[0]] + os[1..];
    if ops == [] {
      ItemParses(os[0], k);
      FlatStep(Item(os[0]) + k, os[0], k, p);
      assert [os[0]] + [] == os;
    } else {
      assert ops == [ops[0]] + ops[1..];
      var o, r := [Token.Mark(ops[0])], Row(os[1..], ops[1..]);
      Assoc(Item(os[0]) + o, r, k);
      Assoc(Item(os[0]), o, r + k);
      Step(Token.Mark(ops[0]), r + k);
      Begins(r, k);
      RowParses(os[1..], ops[1..], k, p);
      OperatorGoesOn(ops[0], r + k, p);
      ItemParses(os[0], o + (r + k));
      FlatStep(Item(os[0]) + (o + (r + k)), os[0], o + (r + k), p);
    }
  }

  /** Any row is read as the one tree that keeps its order and obeys the priorities. */
  lemma RowIsTheCanonicalTree(os: seq<Tree>, ops: seq<Mark>, s: Shape<Tree>, k: seq<Token>, p: Purpose)
    requires |os| == |ops| + 1 && (forall t | t in os :: WellFormed(t)) && (forall op | op in ops :: Writable(op))
    requires Ends(p, k) && Canonical(s) && Operands(s) == os && Operators(s) == ops
    ensures Expression(Row(os, ops) + k, p) == Ok(Erase(s), k)
  {
    RowParses(os, ops, k, p);
    BuildIsTheCanonicalTree(os, ops, s);
  }

  // ----- operands -----

  lemma {:induction false} ItemParses(t: Tree, k: seq<Token>)
    requires WellFormed(t) && Stops(k)
    ensures Operand(Item(t) + k) == Ok(t, k)
    decreases t, 3
  {
    if Infix(t) {
      EnclosedParses(t, k, false);
      LinksStep(Enclosed(t) + k, None, t, k);
      AfterStops(k, t, None, false);
    } else {
      PostfixParses(t, k);
    }
  }

  lemma {:induction false} EnclosedParses(t: Tree, k: seq<Token>, inChain: bool)
    requires WellFormed(t)
    ensures Primary(Enclosed(t) + k, inChain, false) == Ok((t, false), k)
    decreases t, if Infix(t) then 2 else 6
  {
    var o, c := [Token.Mark(Paren)], [Token.Mark(EndParen)];
    Assoc(o + Side(t, 0), c, k);
    Assoc(o, Side(t, 0), c + k);
    Step(Token.Mark(Paren), Side(t, 0) + (c + k));
    Step(Token.Mark(EndParen), k);
    PrintParses(t, c + k, Inner);
    EnclosedStep(o + (Side(t, 0) + (c + k)), t, c + k, inChain);
  }

  lemma {:induction false} PostfixParses(t: Tree, k: seq<Token>)
    requires WellFormed(t) && !Infix(t) && Stops(k)
    ensures Links(Postfix(t) + k, None, false) == Ok(t, k)
    decreases t, 1
  {
    if t.Number? && t.value < 0 {
      NegativeParses(t.value, k);
    } else if t.Chain? {
      ChainParses(t, k);
      ChainStops(t.items, k);
    } else if t.Operation? {
      IndexParses(t, k);
      AfterStops(k, t, None, false);
    } else {
      SolidParses(t, k, false);
      LinksStep(Postfix(t) + k, None, t, k);
      AfterStops(k, t, None, false);
    }
  }

  lemma NegativeParses(v: int, k: seq<Token>)
    requires -0x8000_0000 < v < 0 && Stops(k)
    ensures Links(Postfix(Number(v)) + k, None, false) == Ok(Number(v), k)
  {
    var ts := [Token.Mark(Minus)] + ([Token.Int(-v)] + k);
    assert Postfix(Number(v)) + k == ts;
    Step(Token.Mark(Minus), [Token.Int(-v)] + k);
    Step(Token.Int(-v), k);
    NegativeStep(ts);
    SignedStops(ts, Number(v), k);
  }

  lemma ChainStops(items: seq<Tree>, k: seq<Token>)
    requires |items| > 0 && Stops(k)
    ensures AfterPrimary(k, items[|items| - 1], Some(items[..|items| - 1]), false) == Ok(Chain(items), k)
  {
    var n := |items| - 1;
    AfterStops(k, items[n], Some(items[..n]), false);
    assert items[..n] + [items[n]] == items;
  }

  lemma {:induction false} SolidParses(t: Tree, k: seq<Token>, inChain: bool)
    requires WellFormed(t) && (Solid(t) || (t.Number? && t.value >= 0 && !inChain))
    requires Current(k) != Token.Mark(Paren)
    ensures Primary(Postfix(t) + k, inChain, false) == Ok((t, false), k)
    decreases t, 0
  {
    if t.Call? {
      CallParses(t.name, t.args, k, inChain);
    } else if t.ArrayOf? {
      ArrayParses(t.items, k, inChain);
    } else {
      Step(Postfix(t)[0], k);
      PlainStep(Postfix(t) + k, inChain);
    }
  }

  lemma {:induction false} CallParses(f: string, args: seq<Tree>, k: seq<Token>, inChain: bool)
    requires forall a | a in args :: WellFormed(a)
    ensures Primary(Postfix(Call(f, args)) + k, inChain, false) == Ok((Call(f, args), false), k)
    decreases args, 1
  {
    var c := [Token.Mark(EndParen)] + k;
    var rest := [Token.Mark(Paren)] + (Commas(args) + c);
    var ts := [Symbol(f)] + rest;
    assert Postfix(Call(f, args)) + k == ts;
    Step(Symbol(f), rest);
    Step(Token.Mark(Paren), Commas(args) + c);
    Step(Token.Mark(EndParen), k);
    ListParses(args, EndParen, Argument, k);
    PlainStep(ts, inChain);
    CallStep(ts, args, c, inChain);
  }

  lemma {:induction false} ArrayParses(items: seq<Tree>, k: seq<Token>, inChain: bool)
    requires forall a | a in items :: WellFormed(a)
    ensures Primary(Postfix(ArrayOf(items)) + k, inChain, false) == Ok((ArrayOf(items), false), k)
    decreases items, 1
  {
    var c := [Token.Mark(EndBracket)] + k;
    var ts := [Token.Mark(Bracket)] + (Commas(items) + c);
    assert Postfix(ArrayOf(items)) + k == ts;
    Step(Token.Mark(Bracket), Commas(items) + c);
    Step(Token.Mark(EndBracket), k);
    ListParses(items, EndBracket, Element, k);
    PlainStep(ts, inChain);
    ArrayStep(ts, items, c, inChain);
  }

  lemma {:induction false} ListParses(ts: seq<Tree>, close: Mark, p: Purpose, k: seq<Token>)
    requires forall a | a in ts :: WellFormed(a)
    requires (close == EndParen && p == Argument) || (close == EndBracket && p == Element)
    ensures List(Commas(ts) + ([Token.Mark(close)] + k), close, p) == Ok(ts, [Token.Mark(close)] + k)
    decreases ts, 0
  {
    var c := [Token.Mark(close)] + k;
    if ts == [] {
      ListEnds(close, p, k);
      assert Commas(ts) + c == c;
    } else {
      CommasSplit(ts);
      if |ts| == 1 {
        Step(Token.Mark(close), k);
        PrintParses(ts[0], c, p);
        ListLast(ts[0], close, p, k);
      } else {
        var more := Commas(ts[1..]) + c;
        ListParses(ts[1..], close, p, k);
        CommaLayout(Print(ts[0]), Commas(ts[1..]), c);
        PrintParses(ts[0], [Token.Mark(Comma)] + more, p);
        ListMore(ts[0], ts[1..], close, p, more, c);
      }
    }
  }

  lemma CommasSplit(ts: seq<Tree>)
    requires ts != [] && forall a | a in ts :: WellFormed(a)
    ensures ts == [ts[0]] + ts[1..]
    ensures |ts| == 1 ==> ts == [ts[0]] && Commas(ts) == Print(ts[0])
    ensures |ts| > 1 ==>
      Commas(ts) == Print(ts[0]) + [Token.Mark(Comma)] + Commas(ts[1..]) && Startable(Commas(ts[1..]))
  {
  }

  lemma ListLast(t: Tree, close: Mark, p: Purpose, k: seq<Token>)
    requires WellFormed(t) && (close == EndParen || close == EndBracket)
    requires Expression(Print(t) + ([Token.Mark(close)] + k), p) == Ok(t, [Token.Mark(close)] + k)
    ensures List(Print(t) + ([Token.Mark(close)] + k), close, p) == Ok([t], [Token.Mark(close)] + k)
  {
    var c := [Token.Mark(close)] + k;
    Step(Token.Mark(close), k);
    ListEnds(close, p, k);
    Begins(Print(t), c);
    ListStep(Print(t) + c, close, p, t, c);
    assert [t] + [] == [t];
  }

  lemma ListEnds(close: Mark, p: Purpose, k: seq<Token>)
    ensures List([Token.Mark(close)] + k, close, p) == Ok([], [Token.Mark(close)] + k)
  {
    Step(Token.Mark(close), k);
  }

  lemma ListMore(t: Tree, ts: seq<Tree>, close: Mark, p: Purpose, more: seq<Token>, c: seq<Token>)
    requires WellFormed(t) && (close == EndParen || close == EndBracket) && Starter(Current(more))
    requires Expression(Print(t) + ([Token.Mark(Comma)] + more), p) == Ok(t, [Token.Mark(Comma)] + more)
    requires List(more, close, p) == Ok(ts, c)
    ensures List(Print(t) + ([Token.Mark(Comma)] + more), close, p) == Ok([t] + ts, c)
  {
    Step(Token.Mark(Comma), more);
    Begins(Print(t), [Token.Mark(Comma)] + more);
    ListStep(Print(t) + ([Token.Mark(Comma)] + more), close, p, t, [Token.Mark(Comma)] + more);
  }

  lemma CommaLayout(first: seq<Token>, others: seq<Token>, k: seq<Token>)
    requires Startable(others)
    ensures first + [Token.Mark(Comma)] + others + k == first + ([Token.Mark(Comma)] + (others + k))
    ensures Current([Token.Mark(Comma)] + (others + k)) == Token.Mark(Comma)
    ensures Advance([Token.Mark(Comma)] + (others + k)) == others + k && Starter(Current(others + k))
  {
    Assoc(first + [Token.Mark(Comma)], others, k);
    Assoc(first, [Token.Mark(Comma)], others + k);
    Step(Token.Mark(Comma), others + k);
    Begins(others, k);
  }

  lemma {:induction false} HeadParses(t: Tree, k: seq<Token>)
    requires WellFormed(t) && Current(k) != Token.Mark(Paren)
    ensures Links(Head(t) + k, None, false) == AfterPrimary(k, t, None, false)
    decreases t, 7
  {
    if t.Operation? && t.op == Bracket {
      IndexParses(t, k);
    } else if Solid(t) || (t.Number? && t.value >= 0) {
      SolidParses(t, k, false);
      LinksStep(Postfix(t) + k, None, t, k);
    } else {
      EnclosedParses(t, k, false);
      LinksStep(Enclosed(t) + k, None, t, k);
    }
  }

  lemma {:induction false} BaseParses(t: Tree, k: seq<Token>)
    requires WellFormed(t) && Current(k) != Token.Mark(Paren)
    ensures t.Chain? ==>
      Links(Base(t) + k, None, false) ==
      AfterPrimary(k, t.items[|t.items| - 1], Some(t.items[..|t.items| - 1]), false)
    ensures !t.Chain? ==> Links(Base(t) + k, None, false) == AfterPrimary(k, t, None, false)
    decreases t, 8
  {
    if t.Chain? { ChainParses(t, k); } else { HeadParses(t, k); }
  }

  lemma IndexLayout(b: seq<Token>, i: seq<Token>, k: seq<Token>)
    ensures b + [Token.Mark(Bracket)] + i + [Token.Mark(EndBracket)] + k ==
      b + ([Token.Mark(Bracket)] + (i + ([Token.Mark(EndBracket)] + k)))
  {
    var o, c := [Token.Mark(Bracket)], [Token.Mark(EndBracket)];
    Assoc(b + o + i, c, k);
    Assoc(b + o, i, c + k);
    Assoc(b, o, i + (c + k));
  }

  lemma {:induction false} IndexAfter(i: Tree, k: seq<Token>, t: Tree, chain: Option<seq<Tree>>)
    requires WellFormed(i)
    ensures AfterPrimary([Token.Mark(Bracket)] + (Print(i) + ([Token.Mark(EndBracket)] + k)), t, chain, false) ==
      AfterPrimary(k, Operation(Bracket, if chain.Some? then Chain(chain.value + [t]) else t, i), None, false)
    decreases i, 6
  {
    var c := [Token.Mark(EndBracket)] + k;
    Step(Token.Mark(Bracket), Print(i) + c);
    Step(Token.Mark(EndBracket), k);
    PrintParses(i, c, Index);
    AfterBracket([Token.Mark(Bracket)] + (Print(i) + c), t, chain, i, c);
  }

  lemma {:induction false} IndexAfterChain(i: Tree, k: seq<Token>, items: seq<Tree>)
    requires WellFormed(i) && items != []
    ensures AfterPrimary([Token.Mark(Bracket)] + (Print(i) + ([Token.Mark(EndBracket)] + k)),
                         items[|items| - 1], Some(items[..|items| - 1]), false) ==
      AfterPrimary(k, Operation(Bracket, Chain(items), i), None, false)
    decreases i, 7
  {
    var n := |items| - 1;
    assert items[..n] + [items[n]] == items;
    IndexAfter(i, k, items[n], Some(items[..n]));
  }

  lemma {:induction false} IndexParses(t: Tree, k: seq<Token>)
    requires WellFormed(t) && t.Operation? && t.op == Bracket
    ensures Links(Postfix(t) + k, None, false) == AfterPrimary(k, t, None, false)
    decreases t, 0
  {
    var ts := [Token.Mark(Bracket)] + (Print(t.right) + ([Token.Mark(EndBracket)] + k));
    IndexLayout(Base(t.left), Print(t.right), k);
    BaseParses(t.left, ts);
    if t.left.Chain? {
      IndexAfterChain(t.right, k, t.left.items);
    } else {
      IndexAfter(t.right, k, t.left, None);
    }
  }

  /** The chain and the newest link after the links ts have followed t. */
  function Extend(ts: seq<Tree>, t: Tree, chain: Option<seq<Tree>>): (Tree, Option<seq<Tree>>) {
    if ts == [] then (t, chain)
    else Extend(ts[1..], ts[0], Some((if chain.Some? then chain.value else []) + [t]))
  }

  lemma {:induction false} ExtendAll(ts: seq<Tree>, t: Tree, chain: seq<Tree>)
    ensures var all := chain + [t] + ts; Extend(ts, t, Some(chain)) == (all[|all| - 1], Some(all[..|all| - 1]))
  {
    if ts == [] {
      assert (chain + [t] + ts)[..|chain|] == chain;
    } else {
      ExtendAll(ts[1..], ts[0], chain + [t]);
      assert chain + [t] + [ts[0]] + ts[1..] == chain + [t] + ts;
    }
  }

  lemma {:induction false} ChainParses(t: Tree, k: seq<Token>)
    requires WellFormed(t) && t.Chain? && Current(k) != Token.Mark(Paren)
    ensures Links(Postfix(t) + k, None, false) ==
      AfterPrimary(k, t.items[|t.items| - 1], Some(t.items[..|t.items| - 1]), false)
    decreases t, 0
  {
    var items := t.items;
    Assoc(Head(items[0]), Dots(items[1..]), k);
    if items[1..] != [] { DotStep(items[1..], k); }
    HeadParses(items[0], Dots(items[1..]) + k);
    DotsParse(items[1..], k, items[0], None);
    ExtendFirst(items);
  }

  lemma ExtendFirst(items: seq<Tree>)
    requires |items| > 1
    ensures Extend(items[1..], items[0], None) == (items[|items| - 1], Some(items[..|items| - 1]))
  {
    ExtendAll(items[2..], items[1], [items[0]]);
    assert items[1..][1..] == items[2..] && [] + [items[0]] == [items[0]];
    assert [items[0]] + [items[1]] + items[2..] == items;
  }

  lemma DotStep(ts: seq<Tree>, k: seq<Token>)
    requires ts != [] && forall a | a in ts :: WellFormed(a)
    ensures var rest := Link(ts[0]) + (Dots(ts[1..]) + k);
      && Dots(ts) + k == [Token.Mark(Dot)] + rest
      && Current(Dots(ts) + k) == Token.Mark(Dot) && Advance(Dots(ts) + k) == rest
      && Starter(Current(rest))
  {
    var d, l, m := [Token.Mark(Dot)], Link(ts[0]), Dots(ts[1..]);
    Assoc(d + l, m, k);
    Assoc(d, l, m + k);
    Step(Token.Mark(Dot), l + (m + k));
    Begins(l, m + k);
  }

  lemma {:induction false} DotsParse(ts: seq<Tree>, k: seq<Token>, t: Tree, chain: Option<seq<Tree>>)
    requires Current(k) != Token.Mark(Paren) && forall a | a in ts :: WellFormed(a)
    ensures AfterPrimary(Dots(ts) + k, t, chain, false) ==
      AfterPrimary(k, Extend(ts, t, chain).0, Extend(ts, t, chain).1, false)
    decreases ts
  {
    if ts == [] {
      assert Dots(ts) + k == k;
    } else {
      var longer := (if chain.Some? then chain.value else []) + [t];
      var more := Dots(ts[1..]) + k;
      DotStep(ts, k);
      AfterDot(Dots(ts) + k, t, chain);
      if ts[1..] == [] { assert more == k; } else { DotStep(ts[1..], k); }
      LinkParses(ts[0], more, longer);
      DotsParse(ts[1..], k, ts[0], Some(longer));
    }
  }

  lemma {:induction false} LinkParses(t: Tree, k: seq<Token>, chain: seq<Tree>)
    requires WellFormed(t) && Current(k) != Token.Mark(Paren)
    ensures Links(Link(t) + k, Some(chain), false) == AfterPrimary(k, t, Some(chain), false)
    decreases t, 7
  {
    if Solid(t) { SolidParses(t, k, true); } else { EnclosedParses(t, k, true); }
    LinksStep(Link(t) + k, Some(chain), t, k);
  }
}
