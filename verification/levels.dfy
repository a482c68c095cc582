/** What the priorities of the marks come to, mark by mark, and where expressions end. */
module Levels {
  import opened Tokens
  import opened Precedence
  import opened Grammar
  import opened Printer
  import opened RoundTrip
  import opened Seqs

  /** The binary operators, the tightest first. */
  const LEVELS: seq<set<Mark>> := [
    {Mul, Div, Mod}, {Plus, Minus}, {RShift, LShift}, {And}, {Or, Xor}, {LessEq, GreaterEq, Greater, Less},
    {NotSame, Assign}, {AndAnd}, {OrOr}, {Same}]

  lemma LevelIsPriority(op: Mark, i: nat)
    requires i < |LEVELS| && op in LEVELS[i]
    ensures Priority(op) == 14 - i && Writable(op)
  {
  }

  /** The operators are these, and no other mark can be written between two operands. */
  lemma WritableMarks(op: Mark)
    ensures Writable(op) <==> exists i :: 0 <= i < |LEVELS| && op in LEVELS[i]
  {
    match op {
      case Mul | Div | Mod => assert op in LEVELS[0];
      case Plus | Minus => assert op in LEVELS[1];
      case RShift | LShift => assert op in LEVELS[2];
      case And => assert op in LEVELS[3];
      case Or | Xor => assert op in LEVELS[4];
      case LessEq | GreaterEq | Greater | Less => assert op in LEVELS[5];
      case NotSame | Assign => assert op in LEVELS[6];
      case AndAnd => assert op in LEVELS[7];
      case OrOr => assert op in LEVELS[8];
      case Same => assert op in LEVELS[9];
      case _ =>
    }
  }

  /** a op1 b op2 c. */
  function Three(a: Tree, op1: Mark, b: Tree, op2: Mark, c: Tree): seq<Token>
    requires WellFormed(a) && WellFormed(b) && WellFormed(c)
  {
    Item(a) + [Token.Mark(op1)] + Item(b) + [Token.Mark(op2)] + Item(c)
  }

  lemma ThreeIsARow(a: Tree, op1: Mark, b: Tree, op2: Mark, c: Tree)
    requires WellFormed(a) && WellFormed(b) && WellFormed(c)
    ensures Row([a, b, c], [op1, op2]) == Three(a, op1, b, op2, c)
  {
    assert [a, b, c][1..] == [b, c] && [op1, op2][1..] == [op2];
    TwoAreARow(b, op2, c);
    Assoc(Item(a) + [Token.Mark(op1)], Item(b) + [Token.Mark(op2)], Item(c));
    Assoc(Item(a) + [Token.Mark(op1)], Item(b), [Token.Mark(op2)]);
  }

  lemma TwoAreARow(b: Tree, op: Mark, c: Tree)
    requires WellFormed(b) && WellFormed(c)
    ensures Row([b, c], [op]) == Item(b) + [Token.Mark(op)] + Item(c)
  {
    assert [b, c][1..] == [c] && [op][1..] == [];
    assert Row([c], []) == Item(c);
  }

  /** Of two operators in a row the one in the tighter class takes the operand between them, and the
      left one when they are in the same class. */
  lemma TighterTakesTheOperand(a: Tree, op1: Mark, b: Tree, op2: Mark, c: Tree, i: nat, j: nat, k: seq<Token>,
                               p: Purpose)
    requires WellFormed(a) && WellFormed(b) && WellFormed(c) && Ends(p, k)
    requires i < |LEVELS| && op1 in LEVELS[i] && j < |LEVELS| && op2 in LEVELS[j]
    ensures Expression(Three(a, op1, b, op2, c) + k, p) ==
      if j < i then Ok(Operation(op1, a, Operation(op2, b, c)), k)
      else Ok(Operation(op2, Operation(op1, a, b), c), k)
  {
    LevelIsPriority(op1, i);
    LevelIsPriority(op2, j);
    TreeOfThree(a, op1, b, op2, c, k, p);
  }

  lemma TreeOfThree(a: Tree, op1: Mark, b: Tree, op2: Mark, c: Tree, k: seq<Token>, p: Purpose)
    requires WellFormed(a) && WellFormed(b) && WellFormed(c) && Ends(p, k) && Writable(op1) && Writable(op2)
    ensures Expression(Three(a, op1, b, op2, c) + k, p) ==
      Ok(TreeBy(Priority(op2) > Priority(op1), a, op1, b, op2, c), k)
  {
    var ts, os, ops, s := Three(a, op1, b, op2, c), [a, b, c], [op1, op2], ShapeOfThree(a, op1, b, op2, c);
    ThreeIsARow(a, op1, b, op2, c);
    ThreeShape(a, op1, b, op2, c);
    ReadAs(ts, os, ops, s, k, p);
  }

  function TreeBy(tighter: bool, a: Tree, op1: Mark, b: Tree, op2: Mark, c: Tree): Tree {
    if tighter then Operation(op1, a, Operation(op2, b, c)) else Operation(op2, Operation(op1, a, b), c)
  }

  lemma ReadAs(ts: seq<Token>, os: seq<Tree>, ops: seq<Mark>, s: Shape<Tree>, k: seq<Token>, p: Purpose)
    requires |os| == |ops| + 1 && (forall t | t in os :: WellFormed(t)) && (forall op | op in ops :: Writable(op))
    requires Ends(p, k) && Canonical(s) && Operands(s) == os && Operators(s) == ops && ts == Row(os, ops)
    ensures Expression(ts + k, p) == Ok(Erase(s), k)
  {
    RowIsTheCanonicalTree(os, ops, s, k, p);
  }

  function ShapeOfThree(a: Tree, op1: Mark, b: Tree, op2: Mark, c: Tree): Shape<Tree> {
    if Priority(op2) > Priority(op1) then Shape.Node(op1, Leaf(a), Shape.Node(op2, Leaf(b), Leaf(c)))
    else Shape.Node(op2, Shape.Node(op1, Leaf(a), Leaf(b)), Leaf(c))
  }

  lemma ThreeShape(a: Tree, op1: Mark, b: Tree, op2: Mark, c: Tree)
    ensures var s := ShapeOfThree(a, op1, b, op2, c);
      && Canonical(s) && Operands(s) == [a, b, c] && Operators(s) == [op1, op2]
      && Erase(s) == TreeBy(Priority(op2) > Priority(op1), a, op1, b, op2, c)
  {
    var s := ShapeOfThree(a, op1, b, op2, c);
    if Priority(op2) > Priority(op1) {
      assert Operands(s.right) == [b, c] && Operators(s.right) == [op2] && Operands(s.left) == [a];
      assert [a] + [b, c] == [a, b, c] && [] + [op1] + [op2] == [op1, op2];
      assert Erase(s.right) == Operation(op2, b, c);
    } else {
      assert Operands(s.left) == [a, b] && Operators(s.left) == [op1] && Operands(s.right) == [c];
      assert [a, b] + [c] == [a, b, c] && [op1] + [op2] + [] == [op1, op2];
      assert Erase(s.left) == Operation(op1, a, b);
    }
  }

  // ----- where expressions end -----

  /** The tokens that end an expression, by what it is read for. */
  function Enders(p: Purpose): set<Token> {
    match p
    case IfCondition => {Then}
    case WhileCondition => {Eol, Eof}
    case Root => {Eol, Eof, If}
    case Argument => {Token.Mark(EndParen), Token.Mark(Comma)}
    case DefaultParameter => {Token.Mark(EndParen), Token.Mark(Comma)}
    case Inner => {Token.Mark(EndParen)}
    case Braced => {Token.Mark(EndBrace)}
    case Element => {Token.Mark(EndBracket), Token.Mark(Comma)}
    case Index => {Token.Mark(EndBracket)}
    case BlockParameter => {Token.Mark(Comma)}
  }

  /** Behind an operand, a token that does not prolong it and is no operator ends the expression there,
      or makes it fail. */
  lemma EndsExactlyAt(a: Tree, t: Token, k: seq<Token>, p: Purpose)
    requires WellFormed(a) && Stops([t] + k) && !(t.Mark? && Writable(t.mark)) && t != Token.Mark(Brace)
    ensures Expression(Item(a) + ([t] + k), p) == if t in Enders(p) then Ok(a, [t] + k) else Fail
  {
    var rest := [t] + k;
    if t in Enders(p) {
      EndsHere(a, rest, p);
    } else {
      ItemParses(a, rest);
      NoWayOn(Item(a) + rest, a, rest, p);
    }
  }

  lemma NoWayOn(ts: seq<Token>, a: Tree, rest: seq<Token>, p: Purpose)
    requires Operand(ts) == Ok(a, rest) && !Ends(p, rest)
    requires !IsInfix(Current(rest)) || Current(Advance(rest)) == Eof
    ensures Expression(ts, p) == Fail
  {
    FlatStep(ts, a, rest, p);
  }

  lemma EndsHere(a: Tree, k: seq<Token>, p: Purpose)
    requires WellFormed(a) && Ends(p, k)
    ensures Expression(Item(a) + k, p) == Ok(a, k)
  {
    RowIsTheCanonicalTree([a], [], Leaf(a), k, p);
    assert Row([a], []) == Item(a);
  }

  /** A bar ends a block parameter when the block follows, and is an operator otherwise. */
  lemma BarEndsBlockParameter(a: Tree, k: seq<Token>)
    requires WellFormed(a) && (Current(k) == Token.Mark(Brace) || Current(k) == Block)
    ensures Expression(Item(a) + ([Token.Mark(Or)] + k), BlockParameter) == Ok(a, [Token.Mark(Or)] + k)
  {
    var bar := [Token.Mark(Or)] + k;
    Step(Token.Mark(Or), k);
    EndsHere(a, bar, BlockParameter);
  }

  /** An operator at the end of the input makes the expression fail. */
  lemma OperatorAtTheEndFails(a: Tree, op: Mark, p: Purpose)
    requires WellFormed(a) && Writable(op)
    ensures Expression(Item(a) + [Token.Mark(op)], p) == Fail
  {
    var rest := [Token.Mark(op)];
    ItemParses(a, rest);
    NoWayOn(Item(a) + rest, a, rest, p);
  }

  // ----- signs and commas -----

  /** Unary plus negates, like minus. */
  lemma PlusNegates(n: Literal, k: seq<Token>)
    requires Stops(k)
    ensures Operand([Token.Mark(Plus), Token.Int(n)] + k) == Ok(Number(-(n as int)), k)
  {
    var ts := [Token.Mark(Plus), Token.Int(n)] + k;
    assert Advance(ts) == [Token.Int(n)] + k && Advance(Advance(ts)) == k;
    SignedStops2(ts, n, k);
  }

  lemma SignedStops2(ts: seq<Token>, n: Literal, k: seq<Token>)
    requires Current(ts) == Token.Mark(Plus) && Current(Advance(ts)) == Token.Int(n) && Advance(Advance(ts)) == k
    requires Stops(k)
    ensures Operand(ts) == Ok(Number(-(n as int)), k)
  {
    assert Primary(ts, false, false) == Ok((Number(-(n as int)), true), k);
    SignedStops(ts, Number(-(n as int)), k);
  }

  /** A comma may stand behind the last argument, or element. */
  lemma TrailingComma(a: Tree, close: Mark, p: Purpose, k: seq<Token>)
    requires WellFormed(a) && ((close == EndParen && p == Argument) || (close == EndBracket && p == Element))
    ensures List(Print(a) + ([Token.Mark(Comma), Token.Mark(close)] + k), close, p) == Ok([a], [Token.Mark(close)] + k)
  {
    var c := [Token.Mark(close)] + k;
    var rest := [Token.Mark(Comma), Token.Mark(close)] + k;
    assert rest == [Token.Mark(Comma)] + c;
    PrintParses(a, rest, p);
    Begins(Print(a), rest);
    Step(Token.Mark(Comma), c);
    Step(Token.Mark(close), k);
    ListEndsBehindComma(Print(a) + rest, close, p, a, rest, c);
  }

  lemma ListEndsBehindComma(ts: seq<Token>, close: Mark, p: Purpose, a: Tree, rest: seq<Token>, c: seq<Token>)
    requires Current(ts) != Token.Mark(close) && Expression(ts, p) == Ok(a, rest)
    requires Current(rest) == Token.Mark(Comma) && Advance(rest) == c && Current(c) == Token.Mark(close)
    ensures List(ts, close, p) == Ok([a], c)
  {
    ListStep(ts, close, p, a, rest);
    assert [a] + [] == [a];
  }

  /** A signed number does not begin a chain. */
  lemma SignedChainFails(sign: Mark, n: Literal, x: string, k: seq<Token>)
    requires sign == Plus || sign == Minus
    ensures Operand([Token.Mark(sign), Token.Int(n), Token.Mark(Dot), Symbol(x)] + k) == Fail
  {
    var name := [Symbol(x)] + k;
    var dot := [Token.Mark(Dot)] + name;
    var number := [Token.Int(n)] + dot;
    var ts := [Token.Mark(sign)] + number;
    assert [Token.Mark(sign), Token.Int(n), Token.Mark(Dot), Symbol(x)] + k == ts;
    Step(Token.Mark(sign), number);
    Step(Token.Int(n), dot);
    Step(Token.Mark(Dot), name);
    NameFails(name, [Number(-(n as int))]);
    DotFails(dot, Number(-(n as int)));
    SignedPrimary(ts, n, dot);
  }

  lemma NameFails(ts: seq<Token>, items: seq<Tree>)
    requires Current(ts).Symbol?
    ensures Links(ts, Some(items), true) == Fail
  {
    assert Primary(ts, true, true) == Fail;
  }

  lemma DotFails(dot: seq<Token>, t: Tree)
    requires Current(dot) == Token.Mark(Dot) && Current(Advance(dot)) != Eof
    requires Links(Advance(dot), Some([t]), true) == Fail
    ensures AfterPrimary(dot, t, None, true) == Fail
  {
    assert [] + [t] == [t];
    assert Indexes(dot, t, None) == Ok((t, None), dot);
  }

  lemma SignedPrimary(ts: seq<Token>, n: Literal, rest: seq<Token>)
    requires Current(ts) == Token.Mark(Plus) || Current(ts) == Token.Mark(Minus)
    requires Current(Advance(ts)) == Token.Int(n) && Advance(Advance(ts)) == rest
    requires AfterPrimary(rest, Number(-(n as int)), None, true) == Fail
    ensures Operand(ts) == Fail
  {
    assert Primary(ts, false, false) == Ok((Number(-(n as int)), true), rest);
  }

  // ----- the forms of operands, token by token -----

  /** The tokens ts, whatever ends the expression behind them, are read as t. */
  ghost predicate IsRead(ts: seq<Token>, t: Tree) {
    forall k, p {:trigger Expression(ts + k, p)} :: Ends(p, k) ==> Expression(ts + k, p) == Ok(t, k)
  }

  lemma PrintedIsRead(t: Tree)
    requires WellFormed(t)
    ensures IsRead(Print(t), t)
  {
    forall k, p | Ends(p, k) ensures Expression(Print(t) + k, p) == Ok(t, k) {
      PrintParses(t, k, p);
    }
  }

  lemma PrintedAsItem(t: Tree)
    requires WellFormed(t) && !Infix(t)
    ensures Print(t) == Postfix(t)
  {
    assert Side(t, 0) == Item(t);
  }

  lemma NumbersAreRead(n: Literal)
    ensures IsRead([Token.Int(n)], Number(n))
    ensures n > 0 ==> IsRead([Token.Mark(Minus), Token.Int(n)], Number(-(n as int)))
  {
    PrintedAsItem(Number(n));
    PrintedIsRead(Number(n));
    if n > 0 {
      PrintedAsItem(Number(-(n as int)));
      PrintedIsRead(Number(-(n as int)));
    }
  }

  /** f(a, b). */
  lemma CallIsRead(f: string, a: Tree, b: Tree)
    requires WellFormed(a) && WellFormed(b)
    ensures IsRead([Symbol(f), Token.Mark(Paren)] + TwoItems(a, b) + [Token.Mark(EndParen)], Tree.Call(f, [a, b]))
  {
    TwoCommas(a, b);
    PrintedAsItem(Tree.Call(f, [a, b]));
    PrintedIsRead(Tree.Call(f, [a, b]));
  }

  /** [a, b]. */
  lemma ArrayIsRead(a: Tree, b: Tree)
    requires WellFormed(a) && WellFormed(b)
    ensures IsRead([Token.Mark(Bracket)] + TwoItems(a, b) + [Token.Mark(EndBracket)], ArrayOf([a, b]))
  {
    TwoCommas(a, b);
    PrintedAsItem(ArrayOf([a, b]));
    PrintedIsRead(ArrayOf([a, b]));
  }

  function TwoItems(a: Tree, b: Tree): seq<Token>
    requires WellFormed(a) && WellFormed(b)
  {
    Print(a) + [Token.Mark(Comma)] + Print(b)
  }

  lemma TwoCommas(a: Tree, b: Tree)
    requires WellFormed(a) && WellFormed(b)
    ensures Commas([a, b]) == TwoItems(a, b)
  {
    CommasSplit([a, b]);
    CommasSplit([b]);
    assert [a, b][1..] == [b];
  }

  function Dotted(x: string, y: string): seq<Token> {
    [Symbol(x), Token.Mark(Dot), Symbol(y)]
  }

  /** x.y. */
  lemma DotIsRead(x: string, y: string)
    ensures IsRead(Dotted(x, y), Chain([Name(x), Name(y)]))
  {
    DotIsPrinted(x, y);
    PrintedAsItem(Chain([Name(x), Name(y)]));
    PrintedIsRead(Chain([Name(x), Name(y)]));
  }

  lemma TwoLinks(a: Tree, b: Tree)
    requires WellFormed(a) && WellFormed(b) && Solid(a) && Solid(b)
    ensures Postfix(Chain([a, b])) == Postfix(a) + ([Token.Mark(Dot)] + Postfix(b))
  {
    OneLink(b);
    assert [a, b][0] == a && [a, b][1..] == [b];
  }

  lemma OneLink(b: Tree)
    requires WellFormed(b) && Solid(b)
    ensures Dots([b]) == [Token.Mark(Dot)] + Postfix(b)
  {
    assert [b][1..] == [];
  }

  lemma DotIsPrinted(x: string, y: string)
    ensures Postfix(Chain([Name(x), Name(y)])) == Dotted(x, y)
  {
    TwoLinks(Name(x), Name(y));
  }

  /** x.y[i] takes an element of x.y. */
  lemma IndexIsRead(x: string, y: string, i: Tree)
    requires WellFormed(i)
    ensures IsRead(Dotted(x, y) + [Token.Mark(Bracket)] + Print(i) + [Token.Mark(EndBracket)],
                    Operation(Bracket, Chain([Name(x), Name(y)]), i))
  {
    var t := Operation(Bracket, Chain([Name(x), Name(y)]), i);
    DotIsPrinted(x, y);
    PrintedAsItem(t);
    PrintedIsRead(t);
  }

  /** Parentheses around an operation leave it as it is. */
  lemma ParenthesesAreRead(t: Tree)
    requires WellFormed(t) && Infix(t)
    ensures IsRead([Token.Mark(Paren)] + Print(t) + [Token.Mark(EndParen)], t)
  {
    assert Item(t) == [Token.Mark(Paren)] + Print(t) + [Token.Mark(EndParen)];
    forall k, p | Ends(p, k) ensures Expression(Item(t) + k, p) == Ok(t, k) {
      EndsHere(t, k, p);
    }
  }
}
