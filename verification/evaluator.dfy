/** What the executor is proved against: for each piece of a script its result code, the state behind
    it, and the operands that it leaves on the stack, above what was there. Like vm.c it takes the last
    operands there are, so that it is right about those left behind by accident; what it comes to
    without them is in Direct. Fuel bounds the depth of the evaluation, as the executor's check of the
    C stack does. */
module Evaluator {
  import opened Script

  /** Undefined: the run has left what is modelled, by calling a method of another object. */
  datatype Signal = NextStep | Returned | Broke | Continued | Thrown | Unfinished | Undefined

  /** The value is that of an expression that ends with NextStep or of a return. The operands left
      behind are those that the piece has pushed and not popped, its value not among them. */
  datatype Result = Result(signal: Signal, value: Value, left: seq<Value>, state: State) {

    /** What an expression or a line leaves on the stack. */
    function Operands(): seq<Value> {
      if signal.NextStep? || signal.Returned? then left + [value] else left
    }

    /** What a statement or a block leaves there. */
    function Remains(): seq<Value> {
      if signal.Returned? then left + [value] else left
    }

    /** The result of a piece that follows one which has left operands. */
    function Above(below: seq<Value>): (r: Result)
      ensures r.signal == signal && r.value == value && r.state == state
    {
      this.(left := below + left)
    }
  }

  /** The values of a list of expressions, in the order of the stack. */
  datatype Results = Results(signal: Signal, values: seq<Value>, state: State) {
    function Above(below: seq<Value>): (r: Results)
      ensures r.signal == signal && r.state == state
    {
      this.(values := below + values)
    }
  }

  function Done(v: Value, s: State): Result {
    Result(NextStep, v, [], s)
  }

  function Signalled(signal: Signal, s: State): Result {
    Result(signal, Stale, [], s)
  }

  predicate IsExprSignal(g: Signal) {
    g.NextStep? || g.Thrown? || Stuck(g)
  }

  predicate Stuck(g: Signal) {
    g.Unfinished? || g.Undefined?
  }

  /** The variable of that name, created with value 0 when there is none. */
  function Locate(s: State, f: nat, outer: bool, x: string): (r: (Place, State))
    requires f < |s.frames|
    ensures |r.1.frames| == |s.frames|
  {
    var base := Base(s, f, outer);
    var found := Find(s, base, x, !outer);
    if found != [] then (found[0], s) else (Local(base), Write(s, Local(base), x, Int(0)))
  }

  // ----- expressions -----

  function Eval(p: Program, fuel: nat, e: Expr, f: nat, s: State): (r: Result)
    requires f < |s.frames|
    ensures |s.frames| <= |r.state.frames| && IsExprSignal(r.signal)
    decreases fuel, 0, 0
  {
    if fuel == 0 then Signalled(Unfinished, s)
    else
      match e
      case Const(n) => Done(Int(Made(n)), s)
      case Name(outer, x) => EvalName(outer, x, f, s)
      case Assign(outer, x, right) => EvalAssign(p, fuel - 1, outer, x, right, f, s)
      case Operate(op, left, right) => EvalOperate(p, fuel - 1, op, left, right, f, s)
      case Call(x, args) => EvalCall(p, fuel - 1, x, args, f, s)
      case Lambda(code) => Done(Node(code, f, s.frames[f].this_), s)
  }

  function EvalName(outer: bool, x: string, f: nat, s: State): (r: Result)
    requires f < |s.frames|
    ensures |s.frames| <= |r.state.frames| && r.signal.NextStep?
  {
    var (place, s1) := Locate(s, f, outer, x);
    Done(Read(s1, place, x), s1)
  }

  /** The variable is located, and created, before the right-hand side is evaluated. */
  function EvalAssign(p: Program, fuel: nat, outer: bool, x: string, right: Expr, f: nat, s: State): (r: Result)
    requires f < |s.frames|
    ensures |s.frames| <= |r.state.frames| && IsExprSignal(r.signal)
    decreases fuel, 1, 0
  {
    var (place, s1) := Locate(s, f, outer, x);
    AssignedTo(Ref(place, x), Eval(p, fuel, right, f, s1))
  }

  function AssignedTo(target: Value, r: Result): (result: Result)
    requires IsExprSignal(r.signal)
    ensures |result.state.frames| == |r.state.frames| && IsExprSignal(result.signal)
  {
    if !r.signal.NextStep? then r.Above([target]) else Assigned([target] + r.Operands(), r.state)
  }

  /** The last operand is assigned to what the one before refers to; that reference is the value. No
      class but that of references defines assignment. */
  function Assigned(all: seq<Value>, s: State): (r: Result)
    requires |all| >= 2
    ensures |r.state.frames| == |s.frames| && IsExprSignal(r.signal)
  {
    var target, n := all[|all| - 2], |all| - 2;
    if target.Ref? then Result(NextStep, target, all[..n], Write(s, target.place, target.name, all[n + 1]))
    else Result(Thrown, Stale, all, s)
  }

  /** Both operands are evaluated, whatever the operator. */
  function EvalOperate(p: Program, fuel: nat, op: Op, left: Expr, right: Expr, f: nat, s: State): (r: Result)
    requires f < |s.frames|
    ensures |s.frames| <= |r.state.frames| && IsExprSignal(r.signal)
    decreases fuel, 1, 0
  {
    var l := Eval(p, fuel, left, f, s);
    if !l.signal.NextStep? then l else Operated(op, l, Eval(p, fuel, right, f, l.state))
  }

  lemma OperateUnfolds(p: Program, fuel: nat, op: Op, left: Expr, right: Expr, f: nat, s: State, l: Result)
    requires f < |s.frames| && l == Eval(p, fuel, left, f, s)
    ensures EvalOperate(p, fuel, op, left, right, f, s) ==
      if !l.signal.NextStep? then l else Operated(op, l, Eval(p, fuel, right, f, l.state))
  {
  }

  function Operated(op: Op, l: Result, r: Result): (result: Result)
    requires IsExprSignal(r.signal) && l.signal.NextStep?
    ensures result.state == r.state && IsExprSignal(result.signal)
  {
    if !r.signal.NextStep? then r.Above(l.Operands()) else Combine(op, l.Operands() + r.Operands(), r.state)
  }

  /** The operator takes the last two operands: the two values, unless one has left others behind. */
  function Combine(op: Op, all: seq<Value>, s: State): (result: Result)
    requires |all| >= 2
    ensures result.state == s && IsExprSignal(result.signal)
  {
    var n := |all| - 2;
    var v := Apply(op, all[n], all[n + 1]);
    if v == [] then Result(Thrown, Stale, all, s) else Result(NextStep, v[0], all[..n], s)
  }

  // ----- calls -----

  /** What a call refers to: a node held by a variable, or a method of the script's object. Methods of
      other objects are not modelled. */
  datatype Callee = NoCallee | UnknownCallee | Callee(code: Method, self: Value, owner: seq<nat>)

  function Resolve(p: Program, x: string, n: nat, f: nat, s: State): Callee
    requires f < |s.frames|
  {
    var found := Find(s, f, x, false);
    if found != [] then
      var v := Read(s, found[0], x);
      if v.Node? then Callee(v.code, v.self, [v.frame]) else NoCallee
    else if s.frames[f].this_ != SELF then UnknownCallee
    else if x in p && n <= |p[x].params| then Callee(p[x], SELF, [])
    else NoCallee
  }

  function EvalCall(p: Program, fuel: nat, x: string, args: seq<Expr>, f: nat, s: State): (r: Result)
    requires f < |s.frames|
    ensures |s.frames| <= |r.state.frames| && IsExprSignal(r.signal)
    decreases fuel, 4, 0
  {
    match Resolve(p, x, |args|, f, s)
    case NoCallee => Signalled(Thrown, Failed(s))
    case UnknownCallee => Signalled(Undefined, s)
    case Callee(code, self, owner) =>
      var pushed := EvalArguments(p, fuel, code, args, f, s).Above([self]);
      if pushed.signal.NextStep? then Invoke(p, fuel, code, true, pushed.values, owner, f, pushed.state)
      else CallFailed(pushed)
  }

  /** A call whose arguments have not all been evaluated leaves those that have been. */
  function CallFailed(pushed: Results): (r: Result)
    requires IsExprSignal(pushed.signal)
    ensures |r.state.frames| == |pushed.state.frames| && r.signal == pushed.signal
  {
    var s := pushed.state;
    Result(pushed.signal, Stale, pushed.values, if pushed.signal.Thrown? && s.exception == [] then Failed(s) else s)
  }

  /** The arguments of a call, from left to right, and then the defaults of the missing ones. */
  function EvalArguments(p: Program, fuel: nat, m: Method, args: seq<Expr>, f: nat, s: State): (r: Results)
    requires f < |s.frames|
    ensures |s.frames| <= |r.state.frames| && IsExprSignal(r.signal)
    ensures r.signal.NextStep? ==> |r.values| >= |args| && |r.values| >= |m.params|
    decreases fuel, 3, 0
  {
    var given := EvalAll(p, fuel, args, f, s);
    if !given.signal.NextStep? || |args| >= |m.params| then given
    else EvalDefaults(p, fuel, m.params[|args|..], f, given.state).Above(given.values)
  }

  function EvalAll(p: Program, fuel: nat, es: seq<Expr>, f: nat, s: State): (r: Results)
    requires f < |s.frames|
    ensures |s.frames| <= |r.state.frames| && IsExprSignal(r.signal)
    ensures r.signal.NextStep? ==> |r.values| >= |es|
    decreases fuel, 2, |es|
  {
    if es == [] then Results(NextStep, [], s)
    else
      var r := Eval(p, fuel, es[0], f, s);
      if !r.signal.NextStep? then Results(r.signal, r.left, r.state)
      else EvalAll(p, fuel, es[1..], f, r.state).Above(r.Operands())
  }

  /** Defaults are evaluated by the caller; with a default missing the call fails. */
  function EvalDefaults(p: Program, fuel: nat, params: seq<Param>, f: nat, s: State): (r: Results)
    requires f < |s.frames|
    ensures |s.frames| <= |r.state.frames| && IsExprSignal(r.signal)
    ensures r.signal.NextStep? ==> |r.values| >= |params|
    decreases fuel, 2, |params|
  {
    if params == [] then Results(NextStep, [], s)
    else if params[0].default == [] then Results(Thrown, [], s)
    else
      var r := Eval(p, fuel, params[0].default[0], f, s);
      if !r.signal.NextStep? then Results(r.signal, r.left, r.state)
      else EvalDefaults(p, fuel, params[1..], f, r.state).Above(r.Operands())
  }

  /** The frame of a method, a node or the body of a catch clause: the last values pushed are the
      parameters, and the one before is "this". */
  function NewFrame(params: seq<Param>, pushed: seq<Value>, owner: seq<nat>, f: nat): Frame
    requires |pushed| > |params|
  {
    var n := |pushed| - |params|;
    Frame(if params == [] then [] else [Bind(params, pushed[n..])], pushed[n - 1], owner, f, Stale)
  }

  function Entered(m: Method, pushed: seq<Value>, owner: seq<nat>, f: nat, s: State): (r: State)
    requires |pushed| > |m.params|
    ensures |r.frames| == |s.frames| + 1
  {
    s.(frames := s.frames + [NewFrame(m.params, pushed, owner, f)])
  }

  /** The body of a method, a node or a catch clause. */
  function EvalBody(p: Program, fuel: nat, body: Body, isRoot: bool, f: nat, s: State): (r: Result)
    requires f < |s.frames|
    ensures |s.frames| <= |r.state.frames|
    ensures isRoot || body.Single? ==> IsExprSignal(r.signal)
    decreases fuel, 2, 0
  {
    match body
    case Single(e) => Eval(p, fuel, e, f, s)
    case Code(block) =>
      var r := Exec(p, fuel, isRoot, block, f, s);
      if r.signal.Returned? && isRoot then r.(signal := NextStep) else r
  }

  /** Runs a method, a node or the body of a catch clause in a frame of its own. What was pushed
      beyond the parameters and "this" stays behind. */
  function Invoke(p: Program, fuel: nat, m: Method, isRoot: bool, pushed: seq<Value>, owner: seq<nat>,
                  f: nat, s: State): (r: Result)
    requires |pushed| > |m.params|
    ensures |s.frames| <= |r.state.frames|
    ensures isRoot || m.body.Single? ==> IsExprSignal(r.signal)
    decreases fuel, 3, 0
  {
    var s1 := Entered(m, pushed, owner, f, s);
    EvalBody(p, fuel, m.body, isRoot, |s.frames|, s1).Above(pushed[..|pushed| - |m.params| - 1])
  }

  // ----- blocks and statements -----

  /** A block. The body of a function ends by returning its last result, and is not left by break
      or continue. What throws leaves no operand behind, save a break out of a function. */
  function Exec(p: Program, fuel: nat, isRoot: bool, block: seq<Statement>, f: nat, s: State): (r: Result)
    requires f < |s.frames|
    ensures |s.frames| <= |r.state.frames|
    ensures isRoot ==> r.signal.Returned? || r.signal.Thrown? || Stuck(r.signal)
    ensures !isRoot && r.signal.Thrown? ==> r.left == []
    decreases fuel, 1, 0
  {
    if fuel == 0 then Signalled(Unfinished, s)
    else
      var r := ExecAll(p, fuel - 1, block, f, s);
      match r.signal
      case Thrown => r.(left := [])
      case NextStep => if isRoot then Result(Returned, r.state.frames[f].last, r.left, r.state) else r
      case Broke => if isRoot then Result(Thrown, Stale, r.left, Failed(r.state)) else r
      case Continued => if isRoot then Result(Thrown, Stale, r.left, Failed(r.state)) else r
      case _ => r
  }

  function ExecAll(p: Program, fuel: nat, block: seq<Statement>, f: nat, s: State): (r: Result)
    requires f < |s.frames|
    ensures |s.frames| <= |r.state.frames|
    decreases fuel, 3, |block|
  {
    if block == [] then Signalled(NextStep, s)
    else
      var r := ExecOne(p, fuel, block[0], f, s);
      if !r.signal.NextStep? then r else ExecAll(p, fuel, block[1..], f, r.state).Above(r.left)
  }

  function ExecOne(p: Program, fuel: nat, statement: Statement, f: nat, s: State): (r: Result)
    requires f < |s.frames|
    ensures |s.frames| <= |r.state.frames|
    decreases fuel, 1, 0
  {
    if fuel == 0 then Signalled(Unfinished, s)
    else
      match statement
      case Do(line) => Keep(ExecLine(p, fuel - 1, line, f, s), f)
      case If(branches) => ExecIf(p, fuel - 1, branches, f, s)
      case While(front, cond, body) => ExecWhile(p, fuel - 1, front, cond, body, f, s)
      case Try(body, catches, noException, finally) =>
        var r := ExecTry(p, fuel - 1, body, catches, noException, f, s);
        if r.signal.NextStep? && finally.Given? then Exec(p, fuel - 1, false, finally.block, f, r.state).Above(r.left)
        else r
  }

  /** Saves the value of a line as the last result of the frame. */
  function Keep(r: Result, f: nat): (k: Result)
    ensures k.signal == r.signal && |k.state.frames| == |r.state.frames| && k.left == r.left && k.value == r.value
  {
    if r.signal.NextStep? && f < |r.state.frames| then
      r.(state := r.state.(frames := r.state.frames[f := r.state.frames[f].(last := r.value)]))
    else r
  }

  function ExecLine(p: Program, fuel: nat, line: Line, f: nat, s: State): (r: Result)
    requires f < |s.frames|
    ensures |s.frames| <= |r.state.frames|
    decreases fuel, 2, line
  {
    match line
    case Plain(e) => Eval(p, fuel, e, f, s)
    case Return(e) =>
      var r := Eval(p, fuel, e, f, s);
      if r.signal.NextStep? then r.(signal := Returned) else r
    case Raise(e) =>
      var r := Eval(p, fuel, e, f, s);
      if r.signal.NextStep? then Result(Thrown, Stale, r.left, r.state.(exception := Pending(r.value))) else r
    case Break => Signalled(Broke, s)
    case Continue => Signalled(Continued, s)
    case BackIf(line, cond) =>
      var r := Eval(p, fuel, cond, f, s);
      if r.signal.NextStep? && Truth(r.value) then ExecLine(p, fuel, line, f, r.state).Above(r.left) else r
  }

  /** The exception object, unless it is the null pointer. */
  function Pending(v: Value): seq<Value> {
    if v.Nothing? then [] else [v]
  }

  function ExecIf(p: Program, fuel: nat, branches: seq<Branch>, f: nat, s: State): (r: Result)
    requires f < |s.frames|
    ensures |s.frames| <= |r.state.frames|
    decreases fuel, 2, |branches|
  {
    if branches == [] then Signalled(NextStep, s)
    else if branches[0].cond == [] then Exec(p, fuel, false, branches[0].block, f, s)
    else
      var c := Eval(p, fuel, branches[0].cond[0], f, s);
      if !c.signal.NextStep? then c
      else if Truth(c.value) then Exec(p, fuel, false, branches[0].block, f, c.state).Above(c.left)
      else ExecIf(p, fuel, branches[1..], f, c.state).Above(c.left)
  }

  /** A loop that tests first, or last. */
  function ExecWhile(p: Program, fuel: nat, front: bool, cond: Expr, body: seq<Statement>, f: nat,
                     s: State): (r: Result)
    requires f < |s.frames|
    ensures |s.frames| <= |r.state.frames|
    ensures !r.signal.Broke? && !r.signal.Continued?
    decreases fuel, 5, 0
  {
    if fuel == 0 then Signalled(Unfinished, s)
    else
      var (again, r) := Iterate(p, fuel - 1, front, cond, body, f, s);
      if again then ExecWhile(p, fuel - 1, front, cond, body, f, r.state).Above(r.left) else r
  }

  /** One round of a loop, and whether there is to be another. */
  function Iterate(p: Program, fuel: nat, front: bool, cond: Expr, body: seq<Statement>, f: nat,
                   s: State): (t: (bool, Result))
    requires f < |s.frames|
    ensures |s.frames| <= |t.1.state.frames|
    ensures if t.0 then !Stuck(t.1.signal) else !t.1.signal.Broke? && !t.1.signal.Continued?
    decreases fuel, 4, 0
  {
    if !front then IterateBody(p, fuel, false, cond, body, f, s)
    else
      var c := Eval(p, fuel, cond, f, s);
      if !c.signal.NextStep? || !Truth(c.value) then (false, c)
      else
        var (again, r) := IterateBody(p, fuel, true, cond, body, f, c.state);
        (again, r.Above(c.left))
  }

  /** The body of a loop, and the test behind it: after continue there is none. */
  function IterateBody(p: Program, fuel: nat, front: bool, cond: Expr, body: seq<Statement>, f: nat,
                       s: State): (t: (bool, Result))
    requires f < |s.frames|
    ensures |s.frames| <= |t.1.state.frames|
    ensures if t.0 then !Stuck(t.1.signal) else !t.1.signal.Broke? && !t.1.signal.Continued?
    decreases fuel, 3, 0
  {
    AfterBody(p, fuel, front, cond, f, Exec(p, fuel, false, body, f, s))
  }

  function AfterBody(p: Program, fuel: nat, front: bool, cond: Expr, f: nat, b: Result): (t: (bool, Result))
    requires f < |b.state.frames|
    ensures |b.state.frames| <= |t.1.state.frames|
    ensures if t.0 then !Stuck(t.1.signal) else !t.1.signal.Broke? && !t.1.signal.Continued?
    decreases fuel, 2, 0
  {
    match b.signal
    case Broke => (false, b.(signal := NextStep))
    case Continued => (true, b)
    case NextStep =>
      if front then (true, b)
      else
        var t := Eval(p, fuel, cond, f, b.state).Above(b.left);
        (t.signal.NextStep? && Truth(t.value), t)
    case _ => (false, b)
  }

  /** The body, and then the first matching catch clause, or what follows when there was no
      exception. */
  function ExecTry(p: Program, fuel: nat, body: seq<Statement>, catches: seq<Catch>, noException: OptionalBlock,
                   f: nat, s: State): (r: Result)
    requires f < |s.frames|
    ensures |s.frames| <= |r.state.frames|
    decreases fuel, 5, 0
  {
    var b := Exec(p, fuel, false, body, f, s);
    if b.signal.Thrown? then
      ExecCatches(p, fuel, catches, f, if b.state.exception == [] then Failed(b.state) else b.state)
    else if b.signal.NextStep? && noException.Given? then
      Exec(p, fuel, false, noException.block, f, b.state).Above(b.left)
    else b
  }

  /** A condition that throws does not take the exception, and leaves its operands behind. */
  function ExecCatches(p: Program, fuel: nat, catches: seq<Catch>, f: nat, s: State): (r: Result)
    requires f < |s.frames|
    ensures |s.frames| <= |r.state.frames|
    decreases fuel, 4, |catches|
  {
    if catches == [] then Signalled(Thrown, s)
    else
      var c := Matches(p, fuel, catches[0], f, s);
      if Stuck(c.signal) then c
      else if c.signal.NextStep? && Truth(c.value) then Handle(p, fuel, catches[0], f, c.state).Above(c.left)
      else ExecCatches(p, fuel, catches[1..], f, c.state).Above(c.left)
  }

  /** The condition of a catch clause, asked about the exception. */
  function Matches(p: Program, fuel: nat, clause: Catch, f: nat, s: State): (r: Result)
    requires f < |s.frames|
    ensures |s.frames| <= |r.state.frames| && IsExprSignal(r.signal)
    decreases fuel, 4, 0
  {
    if clause.cond == [] then Done(Int(1), s)
    else
      var m := Method([Param(clause.name, [])], Single(clause.cond[0]));
      Invoke(p, fuel, m, true, [s.frames[f].this_, Exception(s)], [f], f, s)
  }

  /** The body of a catch clause. The exception is over when it starts. */
  function Handle(p: Program, fuel: nat, clause: Catch, f: nat, s: State): (r: Result)
    requires f < |s.frames|
    ensures |s.frames| <= |r.state.frames|
    decreases fuel, 4, 0
  {
    var m := Method([Param(clause.name, [])], Code(clause.block));
    Invoke(p, fuel, m, false, [s.frames[f].this_, Exception(s)], [f], f, s.(exception := []))
  }

  function Exception(s: State): Value {
    if s.exception == [] then Nothing else s.exception[0]
  }
}
