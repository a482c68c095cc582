/** Compiled scripts, the values they compute with, and the state they change. */
module Script {

  datatype Op = Plus | Minus | Times | Over | Modulo | Less | Greater | AtMost | AtLeast | Equal | NotEqual | And | Or

  /** Expressions. outer stands for "owner." in front of a name. */
  datatype Expr =
    | Const(n: int)
    | Name(outer: bool, name: string)
    | Assign(outer: bool, name: string, right: Expr)
    | Operate(op: Op, left: Expr, right: Expr)
    | Call(name: string, args: seq<Expr>)
    | Lambda(code: Method)

  /** Expressions at the head of a statement: only these leave a block. */
  datatype Line =
    | Plain(expr: Expr)
    | Return(expr: Expr)
    | Raise(expr: Expr)
    | Break
    | Continue
    | BackIf(line: Line, cond: Expr)

  datatype Statement =
    | Do(line: Line)
    | If(branches: seq<Branch>)
    | While(front: bool, cond: Expr, body: seq<Statement>)
    | Try(body: seq<Statement>, catches: seq<Catch>, noException: OptionalBlock, finally: OptionalBlock)

  datatype OptionalBlock = Missing | Given(block: seq<Statement>)

  /** One branch of an if statement; no condition for else. */
  datatype Branch = Branch(cond: seq<Expr>, block: seq<Statement>)

  /** A catch clause, with or without a condition on the exception. */
  datatype Catch = Catch(name: string, cond: seq<Expr>, block: seq<Statement>)

  datatype Param = Param(name: string, default: seq<Expr>)

  /** A method runs a block, a node may also evaluate one expression. */
  datatype Body = Code(block: seq<Statement>) | Single(expr: Expr)

  datatype Method = Method(params: seq<Param>, body: Body)

  /** The methods of the object that the script runs on. */
  type Program = map<string, Method>

  datatype Place = Local(frame: nat) | Global

  /** Integers, references to variables (what an assignment leaves), objects (the script's own and
      the error objects), nodes of code, the "owner" item, the null pointer, and what a new frame's
      last result holds before anything is put there. */
  datatype Value =
    | Int(n: int)
    | Ref(place: Place, name: string)
    | Object(id: nat)
    | Node(code: Method, frame: nat, self: Value)
    | Owner
    | Nothing
    | Stale

  /** The object that the script runs on; errors are numbered from 1. */
  const SELF: Value := Object(0)

  /** A frame. locals is empty, or holds the one table of local variables; owner is empty, or holds
      the frame that the code belongs to. */
  datatype Frame = Frame(locals: seq<map<string, Value>>, this_: Value, owner: seq<nat>, previous: nat, last: Value)

  /** Frames are added, and those that were there keep their place in the chain of calls. */
  predicate Extends(before: seq<Frame>, after: seq<Frame>) {
    |before| <= |after| && forall i :: 0 <= i < |before| ==> after[i].previous == before[i].previous
  }

  datatype State = State(frames: seq<Frame>, globals: map<string, Value>, exception: seq<Value>, objects: nat)

  // ----- values -----

  const LIMIT: int := 0x8000_0000

  /** 32-bit wrap-around. */
  function Wrap(n: int): (r: int)
    ensures -LIMIT <= r < LIMIT && (r - n) % 0x1_0000_0000 == 0
  {
    (n + LIMIT) % 0x1_0000_0000 - LIMIT
  }

  /** The integer item made of a 32-bit integer; the least one does not fit and reads back as 0. */
  function Made(n: int): (r: int)
    ensures -LIMIT < r < LIMIT
  {
    if Wrap(n) == -LIMIT then 0 else Wrap(n)
  }

  function Truth(v: Value): bool {
    if v.Int? then v.n != 0 else !v.Nothing?
  }

  function OfBool(b: bool): (v: Value)
    ensures Truth(v) == b
  {
    Int(if b then 1 else 0)
  }

  function Same(l: Value, r: Value): bool {
    (l.Int? && r.Int? && l.n == r.n) || (l.Object? && r.Object? && l.id == r.id)
  }

  /** C division: toward zero. */
  function Quotient(l: int, r: int): int {
    if r == 0 then 0
    else if (l < 0) == (r < 0) then Magnitude(l) / Magnitude(r)
    else -(Magnitude(l) / Magnitude(r))
  }

  function Magnitude(n: int): (r: nat)
    ensures n != 0 ==> r > 0
  {
    if n < 0 then -n else n
  }

  function Remainder(l: int, r: int): int {
    if r == 0 then 0 else l - r * Quotient(l, r)
  }

  /** What an item counts for as an integer. */
  function Number(v: Value): int {
    if v.Int? then v.n else 0
  }

  /** A binary operator, or nothing when the left operand's class does not define it. */
  function Apply(op: Op, l: Value, r: Value): seq<Value> {
    match op
    case And => [OfBool(Truth(l) && Truth(r))]
    case Or => [OfBool(Truth(l) || Truth(r))]
    case Equal => [OfBool(Same(l, r))]
    case NotEqual => [OfBool(!Same(l, r))]
    case _ => if l.Int? then [Arithmetic(op, l.n, Number(r))] else []
  }

  function Arithmetic(op: Op, l: int, r: int): Value {
    match op
    case Plus => Int(Made(l + r))
    case Minus => Int(Made(l - r))
    case Times => Int(Made(l * r))
    case Over => Int(Made(Quotient(l, r)))
    case Modulo => Int(Made(Remainder(l, r)))
    case Less => OfBool(l < r)
    case Greater => OfBool(l > r)
    case AtMost => OfBool(l <= r)
    case AtLeast => OfBool(l >= r)
    case _ => Stale
  }

  // ----- variables -----

  predicate Has(s: State, f: nat, x: string) {
    f < |s.frames| && s.frames[f].locals != [] && x in s.frames[f].locals[0]
  }

  /** Where a name is found from frame f: its locals, its owner's locals, the globals. */
  function Find(s: State, f: nat, x: string, globals: bool): seq<Place>
    requires f < |s.frames|
  {
    if Has(s, f, x) then [Local(f)]
    else if s.frames[f].owner != [] && Has(s, s.frames[f].owner[0], x) then [Local(s.frames[f].owner[0])]
    else if globals && x in s.globals then [Global]
    else []
  }

  function Read(s: State, place: Place, x: string): Value {
    match place
    case Local(f) => if Has(s, f, x) then s.frames[f].locals[0][x] else Stale
    case Global => if x in s.globals then s.globals[x] else Stale
  }

  /** Writes a variable, which is created when there is none. */
  function Write(s: State, place: Place, x: string, v: Value): (r: State)
    ensures |r.frames| == |s.frames| && Extends(s.frames, r.frames) && r.exception == s.exception
      && r.objects == s.objects
  {
    match place
    case Local(f) =>
      if f >= |s.frames| then s
      else
        var table := if s.frames[f].locals == [] then map[] else s.frames[f].locals[0];
        s.(frames := s.frames[f := s.frames[f].(locals := [table[x := v]])])
    case Global => s.(globals := s.globals[x := v])
  }

  /** The frame that a name is looked up from. */
  function Base(s: State, f: nat, outer: bool): (r: nat)
    requires f < |s.frames|
    ensures r < |s.frames|
  {
    if outer && s.frames[f].owner != [] && s.frames[f].owner[0] < |s.frames| then s.frames[f].owner[0] else f
  }

  /** An error object becomes the exception. */
  function Failed(s: State): (r: State)
    ensures |r.frames| == |s.frames| && r.exception != []
  {
    s.(exception := [Object(s.objects)], objects := s.objects + 1)
  }

  /** The locals of a new frame: on a repeated name the first parameter wins. */
  function Bind(params: seq<Param>, values: seq<Value>): map<string, Value>
    requires |params| == |values|
  {
    if params == [] then map[] else Bind(params[1..], values[1..])[params[0].name := values[0]]
  }
}
