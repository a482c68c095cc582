/** Tokens as the expression compiler sees them, and the priorities of reserved marks. */
module Tokens {

  /** The reserved marks that matter to expressions. */
  datatype Mark =
    | AndAnd | OrOr | Plus | Minus | Mul | Div | Mod | RShift | LShift
    | And | Or | Xor | Same | NotSame | LessEq | GreaterEq | Greater | Less | Assign
    | Dot | Paren | EndParen | Bracket | EndBracket | Brace | EndBrace | Comma

  /** The value of a digit string that fits a 32-bit int. */
  type Literal = n: int | 0 <= n < 0x8000_0000

  /** Word stands for the operands that are one token long: this, owner, nil, true,
      false, a character or a string literal. */
  datatype Token =
    | Int(n: Literal) | Symbol(name: string) | Word(id: string) | Mark(mark: Mark)
    | If | Then | Block | Eol | Eof

  /** 0 means "not an operator"; a higher number binds tighter. */
  function Priority(m: Mark): nat {
    match m
    case Dot | Paren | Bracket | Brace => 15
    case Mul | Div | Mod => 14
    case Plus | Minus => 13
    case RShift | LShift => 12
    case And => 11
    case Or | Xor => 10
    case LessEq | GreaterEq | Greater | Less => 9
    case NotSame | Assign => 8
    case AndAnd => 7
    case OrOr => 6
    case Same => 5
    case EndParen | EndBracket | EndBrace | Comma => 0
  }

  predicate IsOperator(m: Mark) {
    Priority(m) != 0
  }

  /** The token under the cursor; a stream that has run out keeps giving Eof. */
  function Current(ts: seq<Token>): Token {
    if ts == [] then Eof else ts[0]
  }

  function Advance(ts: seq<Token>): (r: seq<Token>)
    ensures !Current(ts).Eof? ==> |r| < |ts|
    ensures |r| <= |ts|
  {
    if Current(ts).Eof? then ts else ts[1..]
  }
}
