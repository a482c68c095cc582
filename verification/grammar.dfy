/** Expression trees, and what the expression compiler accepts, as functions of the token
    stream: one function for each compile routine, on values instead of linked nodes. */
module Grammar {
  import opened Tokens
  import opened Precedence

  /** Indexing is an operation with the mark Bracket. */
  datatype Tree =
    | Number(value: int)
    | Name(name: string)
    | Word(id: string)
    | Call(name: string, args: seq<Tree>)
    | ArrayOf(items: seq<Tree>)
    | Chain(items: seq<Tree>)
    | Operation(op: Mark, left: Tree, right: Tree)

  function Erase(s: Shape<Tree>): Tree {
    match s
    case Leaf(t) => t
    case Node(op, l, r) => Operation(op, Erase(l), Erase(r))
  }

  /** Why an expression is being read, which fixes the tokens that end it. */
  datatype Purpose =
    | IfCondition | WhileCondition | Argument | DefaultParameter | Root | Inner
    | Braced | BlockParameter | Element | Index

  /** Does the expression end here? Looks at one token, or two for a block parameter. */
  predicate Ends(p: Purpose, ts: seq<Token>) {
    var t := Current(ts);
    match p
    case IfCondition => t == Then
    case WhileCondition => t == Eol || t == Eof
    case Argument | DefaultParameter => t == Token.Mark(EndParen) || t == Token.Mark(Comma)
    case Root => t == Eol || t == Eof || t == If
    case Inner => t == Token.Mark(EndParen)
    case Braced => t == Token.Mark(EndBrace)
    case Element => t == Token.Mark(EndBracket) || t == Token.Mark(Comma)
    case Index => t == Token.Mark(EndBracket)
    case BlockParameter =>
      var next := Current(Advance(ts));
      (t == Token.Mark(Or) && (next == Token.Mark(Brace) || next == Block)) || t == Token.Mark(Comma)
  }

  predicate IsInfix(t: Token) {
    t.Mark? && IsOperator(t.mark)
  }

  datatype Parsed<T> = Fail | Ok(value: T, rest: seq<Token>)

  datatype Option<T> = None | Some(value: T)

  /** Operands and the operators between them, up to the end of the expression. */
  function Flat(ts: seq<Token>, p: Purpose): (r: Parsed<(seq<Tree>, seq<Mark>)>)
    ensures r.Ok? ==> |r.rest| < |ts| && |r.value.0| == |r.value.1| + 1
    ensures r.Ok? ==> Ends(p, r.rest)
    decreases |ts|, 4
  {
    match Operand(ts)
    case Fail => Fail
    case Ok(t, rest) =>
      match More(rest, p)
      case Fail => Fail
      case Ok((ts', ops), rest') => Ok(([t] + ts', ops), rest')
  }

  /** What follows an operand: the end, or an operator and a further operand. */
  function More(ts: seq<Token>, p: Purpose): (r: Parsed<(seq<Tree>, seq<Mark>)>)
    ensures r.Ok? ==> |r.rest| <= |ts| && |r.value.0| == |r.value.1|
    ensures r.Ok? ==> Ends(p, r.rest)
    decreases |ts|, 5
  {
    if Ends(p, ts) then Ok(([], []), ts)
    else if !IsInfix(Current(ts)) || Current(Advance(ts)) == Eof then Fail
    else
      match Flat(Advance(ts), p)
      case Fail => Fail
      case Ok((ts', ops), rest) => Ok((ts', [Current(ts).mark] + ops), rest)
  }

  function Expression(ts: seq<Token>, p: Purpose): (r: Parsed<Tree>)
    ensures r.Ok? ==> |r.rest| < |ts| && Ends(p, r.rest)
    decreases |ts|, 5
  {
    match Flat(ts, p)
    case Fail => Fail
    case Ok((os, ops), rest) => Ok(Erase(Build(os, ops)), rest)
  }

  /** One operand: primaries joined by dots, each with its index brackets. */
  function Operand(ts: seq<Token>): (r: Parsed<Tree>)
    ensures r.Ok? ==> |r.rest| < |ts|
    decreases |ts|, 3
  {
    Links(ts, None, false)
  }

  /** The rest of an operand, given the chain so far and whether a sign was seen in it. */
  function Links(ts: seq<Token>, chain: Option<seq<Tree>>, signed: bool): (r: Parsed<Tree>)
    ensures r.Ok? ==> |r.rest| < |ts|
    decreases |ts|, 2
  {
    match Primary(ts, chain.Some?, signed)
    case Fail => Fail
    case Ok((t, signed'), rest) => AfterPrimary(rest, t, chain, signed')
  }

  /** Index brackets and the next dot, behind the primary t. */
  function AfterPrimary(ts: seq<Token>, t: Tree, chain: Option<seq<Tree>>, signed: bool): (r: Parsed<Tree>)
    ensures r.Ok? ==> |r.rest| <= |ts|
    decreases |ts|, 3
  {
    match Indexes(ts, t, chain)
    case Fail => Fail
    case Ok((t', chain'), rest) =>
      if Current(rest) == Token.Mark(Dot) then
        var items := (if chain'.Some? then chain'.value else []) + [t'];
        var next := Advance(rest);
        if Current(next) == Eof then Ok(Chain(items), next) else Links(next, Some(items), signed)
      else if chain'.Some? then Ok(Chain(chain'.value + [t']), rest)
      else Ok(t', rest)
  }

  /** The primary at the cursor, and the cursor behind it. */
  function Primary(ts: seq<Token>, inChain: bool, signed: bool): (r: Parsed<(Tree, bool)>)
    ensures r.Ok? ==> |r.rest| < |ts|
    decreases |ts|, 1
  {
    if Current(ts) == Token.Mark(Paren) then
      match Expression(Advance(ts), Inner)
      case Fail => Fail
      case Ok(t, rest) => Ok((t, signed), Advance(rest))
    else
      var sign := Current(ts) == Token.Mark(Plus) || Current(ts) == Token.Mark(Minus);
      var body := if sign then Advance(ts) else ts;
      if (signed || sign) && !Current(body).Int? then Fail
      else Plain(body, inChain, signed || sign)
  }

  function Plain(ts: seq<Token>, inChain: bool, signed: bool): (r: Parsed<(Tree, bool)>)
    ensures r.Ok? ==> |r.rest| < |ts|
    decreases |ts|, 0
  {
    match Current(ts)
    case Int(n) =>
      var value: int := if signed then -(n as int) else n;
      if inChain then Fail else Ok((Number(value), signed), Advance(ts))
    case Word(id) => Ok((Tree.Word(id), signed), Advance(ts))
    case Symbol(name) =>
      if Current(Advance(ts)) == Token.Mark(Paren) then
        match List(Advance(Advance(ts)), EndParen, Argument)
        case Fail => Fail
        case Ok(args, rest) =>
          if Current(rest) == Token.Mark(EndParen) then Ok((Call(name, args), signed), Advance(rest)) else Fail
      else Ok((Name(name), signed), Advance(ts))
    case Mark(Bracket) =>
      (match List(Advance(ts), EndBracket, Element)
       case Fail => Fail
       case Ok(items, rest) =>
         if Current(rest) == Token.Mark(EndBracket) then Ok((ArrayOf(items), signed), Advance(rest)) else Fail)
    case _ => Fail
  }

  /** Index brackets; the first one takes the whole chain so far as its base. */
  function Indexes(ts: seq<Token>, t: Tree, chain: Option<seq<Tree>>): (r: Parsed<(Tree, Option<seq<Tree>>)>)
    ensures r.Ok? ==> |r.rest| <= |ts|
    decreases |ts|, 2
  {
    if Current(ts) == Token.Mark(Bracket) then
      match Expression(Advance(ts), Index)
      case Fail => Fail
      case Ok(i, rest) =>
        Indexes(Advance(rest), Operation(Bracket, if chain.Some? then Chain(chain.value + [t]) else t, i), None)
    else Ok((t, chain), ts)
  }

  /** Comma-separated expressions up to the closing mark (a trailing comma is accepted) or the end. */
  function List(ts: seq<Token>, close: Mark, p: Purpose): (r: Parsed<seq<Tree>>)
    ensures r.Ok? ==> |r.rest| <= |ts|
    decreases |ts|, 6
  {
    if Current(ts) == Token.Mark(close) then Ok([], ts)
    else
      match Expression(ts, p)
      case Fail => Fail
      case Ok(t, rest) =>
        var next := if Current(rest) == Token.Mark(Comma) then Advance(rest) else rest;
        if Current(next) == Eof then Ok([t], next)
        else
          match List(next, close, p)
          case Fail => Fail
          case Ok(more, rest') => Ok([t] + more, rest')
  }
}
