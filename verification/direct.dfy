/** A direct evaluator of scripts, without operands: an expression has a value, an operator gets the two
    values of its operands, and the parameters get the values of the arguments by position. */
module Direct {
  import opened Script
  import E = Evaluator

  /** The value is that of an expression that ends with NextStep or of a return. */
  datatype Outcome = Outcome(signal: E.Signal, value: Value, state: State)

  datatype Outcomes = Outcomes(signal: E.Signal, values: seq<Value>, state: State)

  function Done(v: Value, s: State): Outcome {
    Outcome(E.NextStep, v, s)
  }

  function Ended(signal: E.Signal, s: State): Outcome {
    Outcome(signal, Stale, s)
  }

  // ----- expressions -----

  function Eval(p: Program, fuel: nat, e: Expr, f: nat, s: State): (r: Outcome)
    requires f < |s.frames|
    ensures |s.frames| <= |r.state.frames| && E.IsExprSignal(r.signal)
    decreases fuel, 0, 0
  {
    if fuel == 0 then Ended(E.Unfinished, s)
    else
      match e
      case Const(n) => Done(Int(Made(n)), s)
      case Name(outer, x) => var (place, s1) := E.Locate(s, f, outer, x); Done(Read(s1, place, x), s1)
      case Assign(outer, x, right) => EvalAssign(p, fuel - 1, outer, x, right, f, s)
      case Operate(op, left, right) => EvalOperate(p, fuel - 1, op, left, right, f, s)
      case Call(x, args) => EvalCall(p, fuel - 1, x, args, f, s)
      case Lambda(code) => Done(Node(code, f, s.frames[f].this_), s)
  }

  function EvalAssign(p: Program, fuel: nat, outer: bool, x: string, right: Expr, f: nat, s: State): (r: Outcome)
    requires f < |s.frames|
    ensures |s.frames| <= |r.state.frames| && E.IsExprSignal(r.signal)
    decreases fuel, 1, 0
  {
    var (place, s1) := E.Locate(s, f, outer, x);
    var r := Eval(p, fuel, right, f, s1);
    if r.signal.NextStep? then Done(Ref(place, x), Write(r.state, place, x, r.value)) else r
  }

  function EvalOperate(p: Program, fuel: nat, op: Op, left: Expr, right: Expr, f: nat, s: State): (r: Outcome)
    requires f < |s.frames|
    ensures |s.frames| <= |r.state.frames| && E.IsExprSignal(r.signal)
    decreases fuel, 1, 0
  {
    var l := Eval(p, fuel, left, f, s);
    if l.signal.NextStep? then Operated(op, l.value, Eval(p, fuel, right, f, l.state)) else l
  }

  function Operated(op: Op, v: Value, r: Outcome): (result: Outcome)
    requires E.IsExprSignal(r.signal)
    ensures result.state == r.state && E.IsExprSignal(result.signal)
  {
    if !r.signal.NextStep? then r
    else
      var w := Apply(op, v, r.value);
      if w == [] then Ended(E.Thrown, r.state) else Done(w[0], r.state)
  }

  function EvalCall(p: Program, fuel: nat, x: string, args: seq<Expr>, f: nat, s: State): (r: Outcome)
    requires f < |s.frames|
    ensures |s.frames| <= |r.state.frames| && E.IsExprSignal(r.signal)
    decreases fuel, 4, 0
  {
    match E.Resolve(p, x, |args|, f, s)
    case NoCallee => Ended(E.Thrown, Failed(s))
    case UnknownCallee => Ended(E.Undefined, s)
    case Callee(code, self, owner) =>
      var given := EvalArguments(p, fuel, code, args, f, s);
      if given.signal.NextStep? then Invoke(p, fuel, code, true, given.values, self, owner, f, given.state)
      else
        Ended(given.signal,
              if given.signal.Thrown? && given.state.exception == [] then Failed(given.state) else given.state)
  }

  function EvalArguments(p: Program, fuel: nat, m: Method, args: seq<Expr>, f: nat, s: State): (r: Outcomes)
    requires f < |s.frames|
    ensures |s.frames| <= |r.state.frames| && E.IsExprSignal(r.signal)
    ensures r.signal.NextStep? ==> |r.values| >= |m.params|
    decreases fuel, 3, 0
  {
    var given := EvalAll(p, fuel, args, f, s);
    if !given.signal.NextStep? || |args| >= |m.params| then given
    else
      var rest := EvalDefaults(p, fuel, m.params[|args|..], f, given.state);
      if rest.signal.NextStep? then rest.(values := given.values + rest.values) else rest
  }

  function EvalAll(p: Program, fuel: nat, es: seq<Expr>, f: nat, s: State): (r: Outcomes)
    requires f < |s.frames|
    ensures |s.frames| <= |r.state.frames| && E.IsExprSignal(r.signal)
    ensures r.signal.NextStep? ==> |r.values| == |es|
    decreases fuel, 2, |es|
  {
    if es == [] then Outcomes(E.NextStep, [], s)
    else
      var r := Eval(p, fuel, es[0], f, s);
      if r.signal.NextStep? then First(r.value, EvalAll(p, fuel, es[1..], f, r.state))
      else Outcomes(r.signal, [], r.state)
  }

  function EvalDefaults(p: Program, fuel: nat, params: seq<Param>, f: nat, s: State): (r: Outcomes)
    requires f < |s.frames|
    ensures |s.frames| <= |r.state.frames| && E.IsExprSignal(r.signal)
    ensures r.signal.NextStep? ==> |r.values| == |params|
    decreases fuel, 2, |params|
  {
    if params == [] then Outcomes(E.NextStep, [], s)
    else if params[0].default == [] then Outcomes(E.Thrown, [], s)
    else
      var r := Eval(p, fuel, params[0].default[0], f, s);
      if r.signal.NextStep? then First(r.value, EvalDefaults(p, fuel, params[1..], f, r.state))
      else Outcomes(r.signal, [], r.state)
  }

  function First(v: Value, r: Outcomes): (rs: Outcomes)
    ensures rs.signal == r.signal && rs.state == r.state
  {
    if r.signal.NextStep? then r.(values := [v] + r.values) else r
  }

  /** A frame whose locals are the parameters, each with the value of its argument. */
  function Entered(m: Method, values: seq<Value>, self: Value, owner: seq<nat>, f: nat, s: State): (r: State)
    requires |values| >= |m.params|
    ensures |r.frames| == |s.frames| + 1
  {
    var locals := if m.params == [] then [] else [Bind(m.params, values[..|m.params|])];
    s.(frames := s.frames + [Frame(locals, self, owner, f, Stale)])
  }

  function Invoke(p: Program, fuel: nat, m: Method, isRoot: bool, values: seq<Value>, self: Value, owner: seq<nat>,
                  f: nat, s: State): (r: Outcome)
    requires |values| >= |m.params|
    ensures |s.frames| <= |r.state.frames|
    ensures isRoot || m.body.Single? ==> E.IsExprSignal(r.signal)
    decreases fuel, 3, 0
  {
    var s1 := Entered(m, values, self, owner, f, s);
    match m.body
    case Single(e) => Eval(p, fuel, e, |s.frames|, s1)
    case Code(block) =>
      var r := Exec(p, fuel, isRoot, block, |s.frames|, s1);
      if r.signal.Returned? && isRoot then r.(signal := E.NextStep) else r
  }

  // ----- statements -----

  function Exec(p: Program, fuel: nat, isRoot: bool, block: seq<Statement>, f: nat, s: State): (r: Outcome)
    requires f < |s.frames|
    ensures |s.frames| <= |r.state.frames|
    ensures isRoot ==> r.signal.Returned? || r.signal.Thrown? || E.Stuck(r.signal)
    decreases fuel, 1, 0
  {
    if fuel == 0 then Ended(E.Unfinished, s)
    else
      var r := ExecAll(p, fuel - 1, block, f, s);
      if !isRoot then r
      else
        match r.signal
        case NextStep => Outcome(E.Returned, r.state.frames[f].last, r.state)
        case Broke => Ended(E.Thrown, Failed(r.state))
        case Continued => Ended(E.Thrown, Failed(r.state))
        case _ => r
  }

  function ExecAll(p: Program, fuel: nat, block: seq<Statement>, f: nat, s: State): (r: Outcome)
    requires f < |s.frames|
    ensures |s.frames| <= |r.state.frames|
    decreases fuel, 3, |block|
  {
    if block == [] then Ended(E.NextStep, s)
    else
      var r := ExecOne(p, fuel, block[0], f, s);
      if r.signal.NextStep? then ExecAll(p, fuel, block[1..], f, r.state) else r
  }

  function ExecOne(p: Program, fuel: nat, statement: Statement, f: nat, s: State): (r: Outcome)
    requires f < |s.frames|
    ensures |s.frames| <= |r.state.frames|
    decreases fuel, 1, 0
  {
    if fuel == 0 then Ended(E.Unfinished, s)
    else
      match statement
      case Do(line) => Keep(ExecLine(p, fuel - 1, line, f, s), f)
      case If(branches) => ExecIf(p, fuel - 1, branches, f, s)
      case While(front, cond, body) => ExecWhile(p, fuel - 1, front, cond, body, f, s)
      case Try(body, catches, noException, finally) =>
        var r := ExecTry(p, fuel - 1, body, catches, noException, f, s);
        if r.signal.NextStep? && finally.Given? then Exec(p, fuel - 1, false, finally.block, f, r.state) else r
  }

  function Keep(r: Outcome, f: nat): (k: Outcome)
    ensures |k.state.frames| == |r.state.frames|
  {
    if r.signal.NextStep? && f < |r.state.frames| then
      r.(state := r.state.(frames := r.state.frames[f := r.state.frames[f].(last := r.value)]))
    else r
  }

  function ExecLine(p: Program, fuel: nat, line: Line, f: nat, s: State): (r: Outcome)
    requires f < |s.frames|
    ensures |s.frames| <= |r.state.frames|
    decreases fuel, 2, line
  {
    match line
    case Plain(e) => Eval(p, fuel, e, f, s)
    case Return(e) =>
      var r := Eval(p, fuel, e, f, s);
      if r.signal.NextStep? then r.(signal := E.Returned) else r
    case Raise(e) =>
      var r := Eval(p, fuel, e, f, s);
      if r.signal.NextStep? then Ended(E.Thrown, r.state.(exception := E.Pending(r.value))) else r
    case Break => Ended(E.Broke, s)
    case Continue => Ended(E.Continued, s)
    case BackIf(line, cond) =>
      var r := Eval(p, fuel, cond, f, s);
      if r.signal.NextStep? && Truth(r.value) then ExecLine(p, fuel, line, f, r.state) else r
  }

  function ExecIf(p: Program, fuel: nat, branches: seq<Branch>, f: nat, s: State): (r: Outcome)
    requires f < |s.frames|
    ensures |s.frames| <= |r.state.frames|
    decreases fuel, 2, |branches|
  {
    if branches == [] then Ended(E.NextStep, s)
    else if branches[0].cond == [] then Exec(p, fuel, false, branches[0].block, f, s)
    else
      var c := Eval(p, fuel, branches[0].cond[0], f, s);
      if !c.signal.NextStep? then c
      else if Truth(c.value) then Exec(p, fuel, false, branches[0].block, f, c.state)
      else ExecIf(p, fuel, branches[1..], f, c.state)
  }

  function ExecWhile(p: Program, fuel: nat, front: bool, cond: Expr, body: seq<Statement>, f: nat,
                     s: State): (r: Outcome)
    requires f < |s.frames|
    ensures |s.frames| <= |r.state.frames|
    decreases fuel, 5, 0
  {
    if fuel == 0 then Ended(E.Unfinished, s)
    else
      var (again, r) := Iterate(p, fuel - 1, front, cond, body, f, s);
      if again then ExecWhile(p, fuel - 1, front, cond, body, f, r.state) else r
  }

  function Iterate(p: Program, fuel: nat, front: bool, cond: Expr, body: seq<Statement>, f: nat,
                   s: State): (t: (bool, Outcome))
    requires f < |s.frames|
    ensures |s.frames| <= |t.1.state.frames|
    decreases fuel, 4, 0
  {
    if !front then AfterBody(p, fuel, false, cond, f, Exec(p, fuel, false, body, f, s))
    else
      var c := Eval(p, fuel, cond, f, s);
      if !c.signal.NextStep? || !Truth(c.value) then (false, c)
      else AfterBody(p, fuel, true, cond, f, Exec(p, fuel, false, body, f, c.state))
  }

  function AfterBody(p: Program, fuel: nat, front: bool, cond: Expr, f: nat, b: Outcome): (t: (bool, Outcome))
    requires f < |b.state.frames|
    ensures |b.state.frames| <= |t.1.state.frames|
    decreases fuel, 2, 0
  {
    match b.signal
    case Broke => (false, b.(signal := E.NextStep))
    case Continued => (true, b)
    case NextStep =>
      if front then (true, b)
      else
        var t := Eval(p, fuel, cond, f, b.state);
        (t.signal.NextStep? && Truth(t.value), t)
    case _ => (false, b)
  }

  function ExecTry(p: Program, fuel: nat, body: seq<Statement>, catches: seq<Catch>, noException: OptionalBlock,
                   f: nat, s: State): (r: Outcome)
    requires f < |s.frames|
    ensures |s.frames| <= |r.state.frames|
    decreases fuel, 5, 0
  {
    var b := Exec(p, fuel, false, body, f, s);
    if b.signal.Thrown? then
      ExecCatches(p, fuel, catches, f, if b.state.exception == [] then Failed(b.state) else b.state)
    else if b.signal.NextStep? && noException.Given? then Exec(p, fuel, false, noException.block, f, b.state)
    else b
  }

  function ExecCatches(p: Program, fuel: nat, catches: seq<Catch>, f: nat, s: State): (r: Outcome)
    requires f < |s.frames|
    ensures |s.frames| <= |r.state.frames|
    decreases fuel, 4, |catches|
  {
    if catches == [] then Ended(E.Thrown, s)
    else
      var c := Matches(p, fuel, catches[0], f, s);
      if E.Stuck(c.signal) then c
      else if c.signal.NextStep? && Truth(c.value) then Handle(p, fuel, catches[0], f, c.state)
      else ExecCatches(p, fuel, catches[1..], f, c.state)
  }

  function Matches(p: Program, fuel: nat, clause: Catch, f: nat, s: State): (r: Outcome)
    requires f < |s.frames|
    ensures |s.frames| <= |r.state.frames|
    decreases fuel, 4, 0
  {
    if clause.cond == [] then Done(Int(1), s)
    else
      var m := Method([Param(clause.name, [])], Single(clause.cond[0]));
      Invoke(p, fuel, m, true, [E.Exception(s)], s.frames[f].this_, [f], f, s)
  }

  function Handle(p: Program, fuel: nat, clause: Catch, f: nat, s: State): (r: Outcome)
    requires f < |s.frames|
    ensures |s.frames| <= |r.state.frames|
    decreases fuel, 4, 0
  {
    var m := Method([Param(clause.name, [])], Code(clause.block));
    Invoke(p, fuel, m, false, [E.Exception(s)], s.frames[f].this_, [f], f, s.(exception := []))
  }

  /** Parameters get the values of the arguments by position; of two with the same name the first counts. */
  lemma {:induction false} BoundByPosition(params: seq<Param>, values: seq<Value>, i: nat)
    requires |params| == |values| && i < |params|
    requires forall j :: 0 <= j < i ==> params[j].name != params[i].name
    ensures params[i].name in Bind(params, values) && Bind(params, values)[params[i].name] == values[i]
  {
    if i > 0 { BoundByPosition(params[1..], values[1..], i - 1); }
  }
}
