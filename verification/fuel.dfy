/** More fuel never changes a result that was reached: evaluation has one outcome. */
module Fuel {
  import opened Script
  import opened Evaluator

  lemma {:induction false} EvalMore(p: Program, fuel: nat, e: Expr, f: nat, s: State)
    requires f < |s.frames| && !Eval(p, fuel, e, f, s).signal.Unfinished?
    ensures Eval(p, fuel + 1, e, f, s) == Eval(p, fuel, e, f, s)
    decreases fuel, 0, 0
  {
    if fuel > 0 {
      var less: nat := fuel - 1;
      match e {
        case Assign(outer, x, right) => AssignMore(p, less, outer, x, right, f, s);
        case Operate(op, left, right) => OperateMore(p, less, op, left, right, f, s);
        case Call(x, args) => CallMore(p, less, x, args, f, s);
        case _ =>
      }
      LevelMore(p, less, e, f, s);
    }
  }

  lemma LevelMore(p: Program, fuel: nat, e: Expr, f: nat, s: State)
    requires f < |s.frames|
    requires match e
      case Assign(outer, x, right) =>
        EvalAssign(p, fuel + 1, outer, x, right, f, s) == EvalAssign(p, fuel, outer, x, right, f, s)
      case Operate(op, left, right) =>
        EvalOperate(p, fuel + 1, op, left, right, f, s) == EvalOperate(p, fuel, op, left, right, f, s)
      case Call(x, args) => EvalCall(p, fuel + 1, x, args, f, s) == EvalCall(p, fuel, x, args, f, s)
      case _ => true
    ensures Eval(p, fuel + 2, e, f, s) == Eval(p, fuel + 1, e, f, s)
  {
  }

  lemma {:induction false} AssignMore(p: Program, fuel: nat, outer: bool, x: string, right: Expr, f: nat, s: State)
    requires f < |s.frames| && !EvalAssign(p, fuel, outer, x, right, f, s).signal.Unfinished?
    ensures EvalAssign(p, fuel + 1, outer, x, right, f, s) == EvalAssign(p, fuel, outer, x, right, f, s)
    decreases fuel, 1, 0
  {
    EvalMore(p, fuel, right, f, Locate(s, f, outer, x).1);
  }

  lemma {:induction false} OperateMore(p: Program, fuel: nat, op: Op, left: Expr, right: Expr, f: nat, s: State)
    requires f < |s.frames| && !EvalOperate(p, fuel, op, left, right, f, s).signal.Unfinished?
    ensures EvalOperate(p, fuel + 1, op, left, right, f, s) == EvalOperate(p, fuel, op, left, right, f, s)
    decreases fuel, 1, 0
  {
    var l := Eval(p, fuel, left, f, s);
    OperateUnfolds(p, fuel, op, left, right, f, s, l);
    EvalMore(p, fuel, left, f, s);
    if l.signal.NextStep? { EvalMore(p, fuel, right, f, l.state); }
    OperateUnfolds(p, fuel + 1, op, left, right, f, s, l);
  }

  lemma {:induction false} CallMore(p: Program, fuel: nat, x: string, args: seq<Expr>, f: nat, s: State)
    requires f < |s.frames| && !EvalCall(p, fuel, x, args, f, s).signal.Unfinished?
    ensures EvalCall(p, fuel + 1, x, args, f, s) == EvalCall(p, fuel, x, args, f, s)
    decreases fuel, 4, 0
  {
    var callee := Resolve(p, x, |args|, f, s);
    if callee.Callee? {
      ArgumentsMore(p, fuel, callee.code, args, f, s);
      var pushed := EvalArguments(p, fuel, callee.code, args, f, s).Above([callee.self]);
      if pushed.signal.NextStep? {
        InvokeMore(p, fuel, callee.code, true, pushed.values, callee.owner, f, pushed.state);
      }
    }
  }

  lemma {:induction false} ArgumentsMore(p: Program, fuel: nat, m: Method, args: seq<Expr>, f: nat, s: State)
    requires f < |s.frames| && !EvalArguments(p, fuel, m, args, f, s).signal.Unfinished?
    ensures EvalArguments(p, fuel + 1, m, args, f, s) == EvalArguments(p, fuel, m, args, f, s)
    decreases fuel, 3, 0
  {
    AllMore(p, fuel, args, f, s);
    var given := EvalAll(p, fuel, args, f, s);
    if given.signal.NextStep? && |args| < |m.params| { DefaultsMore(p, fuel, m.params[|args|..], f, given.state); }
  }

  lemma {:induction false} AllMore(p: Program, fuel: nat, es: seq<Expr>, f: nat, s: State)
    requires f < |s.frames| && !EvalAll(p, fuel, es, f, s).signal.Unfinished?
    ensures EvalAll(p, fuel + 1, es, f, s) == EvalAll(p, fuel, es, f, s)
    decreases fuel, 2, |es|
  {
    if es != [] {
      EvalMore(p, fuel, es[0], f, s);
      var r := Eval(p, fuel, es[0], f, s);
      if r.signal.NextStep? { AllMore(p, fuel, es[1..], f, r.state); }
    }
  }

  lemma {:induction false} DefaultsMore(p: Program, fuel: nat, params: seq<Param>, f: nat, s: State)
    requires f < |s.frames| && !EvalDefaults(p, fuel, params, f, s).signal.Unfinished?
    ensures EvalDefaults(p, fuel + 1, params, f, s) == EvalDefaults(p, fuel, params, f, s)
    decreases fuel, 2, |params|
  {
    if params != [] && params[0].default != [] {
      EvalMore(p, fuel, params[0].default[0], f, s);
      var r := Eval(p, fuel, params[0].default[0], f, s);
      if r.signal.NextStep? { DefaultsMore(p, fuel, params[1..], f, r.state); }
    }
  }

  lemma {:induction false} InvokeMore(p: Program, fuel: nat, m: Method, isRoot: bool, pushed: seq<Value>,
                                      owner: seq<nat>, f: nat, s: State)
    requires |pushed| > |m.params| && !Invoke(p, fuel, m, isRoot, pushed, owner, f, s).signal.Unfinished?
    ensures Invoke(p, fuel + 1, m, isRoot, pushed, owner, f, s) == Invoke(p, fuel, m, isRoot, pushed, owner, f, s)
    decreases fuel, 3, 0
  {
    BodyMore(p, fuel, m.body, isRoot, |s.frames|, Entered(m, pushed, owner, f, s));
  }

  lemma {:induction false} BodyMore(p: Program, fuel: nat, body: Body, isRoot: bool, f: nat, s: State)
    requires f < |s.frames| && !EvalBody(p, fuel, body, isRoot, f, s).signal.Unfinished?
    ensures EvalBody(p, fuel + 1, body, isRoot, f, s) == EvalBody(p, fuel, body, isRoot, f, s)
    decreases fuel, 2, 0
  {
    match body {
      case Single(e) => EvalMore(p, fuel, e, f, s);
      case Code(block) => ExecMore(p, fuel, isRoot, block, f, s);
    }
  }

  lemma {:induction false} ExecMore(p: Program, fuel: nat, isRoot: bool, block: seq<Statement>, f: nat, s: State)
    requires f < |s.frames| && !Exec(p, fuel, isRoot, block, f, s).signal.Unfinished?
    ensures Exec(p, fuel + 1, isRoot, block, f, s) == Exec(p, fuel, isRoot, block, f, s)
    decreases fuel, 1, 0
  {
    AllStatementsMore(p, fuel - 1, block, f, s);
  }

  lemma {:induction false} AllStatementsMore(p: Program, fuel: nat, block: seq<Statement>, f: nat, s: State)
    requires f < |s.frames| && !ExecAll(p, fuel, block, f, s).signal.Unfinished?
    ensures ExecAll(p, fuel + 1, block, f, s) == ExecAll(p, fuel, block, f, s)
    decreases fuel, 3, |block|
  {
    if block != [] {
      OneMore(p, fuel, block[0], f, s);
      var r := ExecOne(p, fuel, block[0], f, s);
      if r.signal.NextStep? { AllStatementsMore(p, fuel, block[1..], f, r.state); }
    }
  }

  lemma {:induction false} OneMore(p: Program, fuel: nat, statement: Statement, f: nat, s: State)
    requires f < |s.frames| && !ExecOne(p, fuel, statement, f, s).signal.Unfinished?
    ensures ExecOne(p, fuel + 1, statement, f, s) == ExecOne(p, fuel, statement, f, s)
    decreases fuel, 1, 0
  {
    match statement {
      case Do(line) => LineMore(p, fuel - 1, line, f, s);
      case If(branches) => IfMore(p, fuel - 1, branches, f, s);
      case While(front, cond, body) => WhileMore(p, fuel - 1, front, cond, body, f, s);
      case Try(body, catches, noException, finally) =>
        TryMore(p, fuel - 1, body, catches, noException, f, s);
        var r := ExecTry(p, fuel - 1, body, catches, noException, f, s);
        if r.signal.NextStep? && finally.Given? { ExecMore(p, fuel - 1, false, finally.block, f, r.state); }
    }
  }

  lemma {:induction false} LineMore(p: Program, fuel: nat, line: Line, f: nat, s: State)
    requires f < |s.frames| && !ExecLine(p, fuel, line, f, s).signal.Unfinished?
    ensures ExecLine(p, fuel + 1, line, f, s) == ExecLine(p, fuel, line, f, s)
    decreases fuel, 2, line
  {
    match line {
      case Plain(e) => EvalMore(p, fuel, e, f, s);
      case Return(e) => EvalMore(p, fuel, e, f, s);
      case Raise(e) => EvalMore(p, fuel, e, f, s);
      case BackIf(inner, cond) =>
        EvalMore(p, fuel, cond, f, s);
        var r := Eval(p, fuel, cond, f, s);
        if r.signal.NextStep? && Truth(r.value) { LineMore(p, fuel, inner, f, r.state); }
      case _ =>
    }
  }

  lemma {:induction false} IfMore(p: Program, fuel: nat, branches: seq<Branch>, f: nat, s: State)
    requires f < |s.frames| && !ExecIf(p, fuel, branches, f, s).signal.Unfinished?
    ensures ExecIf(p, fuel + 1, branches, f, s) == ExecIf(p, fuel, branches, f, s)
    decreases fuel, 2, |branches|
  {
    if branches != [] {
      if branches[0].cond == [] {
        ExecMore(p, fuel, false, branches[0].block, f, s);
      } else {
        EvalMore(p, fuel, branches[0].cond[0], f, s);
        var c := Eval(p, fuel, branches[0].cond[0], f, s);
        if c.signal.NextStep? {
          if Truth(c.value) { ExecMore(p, fuel, false, branches[0].block, f, c.state); }
          else { IfMore(p, fuel, branches[1..], f, c.state); }
        }
      }
    }
  }

  lemma WhileFinishes(p: Program, fuel: nat, front: bool, cond: Expr, body: seq<Statement>, f: nat, s: State)
    requires f < |s.frames| && !ExecWhile(p, fuel + 1, front, cond, body, f, s).signal.Unfinished?
    ensures var (again, r) := Iterate(p, fuel, front, cond, body, f, s);
      !r.signal.Unfinished? && (again ==> !ExecWhile(p, fuel, front, cond, body, f, r.state).signal.Unfinished?)
  {
    var (again, r) := Iterate(p, fuel, front, cond, body, f, s);
    if again { GoesOn(p, fuel, front, cond, body, f, s); }
  }

  /** A round before another one has come to its end. */
  lemma GoesOn(p: Program, fuel: nat, front: bool, cond: Expr, body: seq<Statement>, f: nat, s: State)
    requires f < |s.frames| && Iterate(p, fuel, front, cond, body, f, s).0
    ensures !Iterate(p, fuel, front, cond, body, f, s).1.signal.Unfinished?
  {
  }

  lemma SameRounds(p: Program, fuel: nat, front: bool, cond: Expr, body: seq<Statement>, f: nat, s: State)
    requires f < |s.frames|
    requires Iterate(p, fuel + 1, front, cond, body, f, s) == Iterate(p, fuel, front, cond, body, f, s)
    requires var (again, r) := Iterate(p, fuel, front, cond, body, f, s); again ==>
      ExecWhile(p, fuel + 1, front, cond, body, f, r.state) == ExecWhile(p, fuel, front, cond, body, f, r.state)
    ensures ExecWhile(p, fuel + 2, front, cond, body, f, s) == ExecWhile(p, fuel + 1, front, cond, body, f, s)
  {
  }

  lemma {:induction false} WhileMore(p: Program, fuel: nat, front: bool, cond: Expr, body: seq<Statement>, f: nat,
                                     s: State)
    requires f < |s.frames| && !ExecWhile(p, fuel, front, cond, body, f, s).signal.Unfinished?
    ensures ExecWhile(p, fuel + 1, front, cond, body, f, s) == ExecWhile(p, fuel, front, cond, body, f, s)
    decreases fuel, 5, 0
  {
    if fuel > 0 {
      var k: nat := fuel - 1;
      WhileFinishes(p, k, front, cond, body, f, s);
      IterateMore(p, k, front, cond, body, f, s);
      var t := Iterate(p, k, front, cond, body, f, s);
      if t.0 { WhileMore(p, k, front, cond, body, f, t.1.state); }
      SameRounds(p, k, front, cond, body, f, s);
    }
  }

  lemma {:induction false} IterateMore(p: Program, fuel: nat, front: bool, cond: Expr, body: seq<Statement>, f: nat,
                                       s: State)
    requires f < |s.frames| && !Iterate(p, fuel, front, cond, body, f, s).1.signal.Unfinished?
    ensures Iterate(p, fuel + 1, front, cond, body, f, s) == Iterate(p, fuel, front, cond, body, f, s)
    decreases fuel, 4, 0
  {
    if !front {
      IterateBodyMore(p, fuel, false, cond, body, f, s);
    } else {
      EvalMore(p, fuel, cond, f, s);
      var c := Eval(p, fuel, cond, f, s);
      if c.signal.NextStep? && Truth(c.value) { IterateBodyMore(p, fuel, true, cond, body, f, c.state); }
    }
  }

  lemma {:induction false} IterateBodyMore(p: Program, fuel: nat, front: bool, cond: Expr, body: seq<Statement>, f: nat,
                                           s: State)
    requires f < |s.frames| && !IterateBody(p, fuel, front, cond, body, f, s).1.signal.Unfinished?
    ensures IterateBody(p, fuel + 1, front, cond, body, f, s) == IterateBody(p, fuel, front, cond, body, f, s)
    decreases fuel, 3, 0
  {
    ExecMore(p, fuel, false, body, f, s);
    var b := Exec(p, fuel, false, body, f, s);
    if b.signal.NextStep? && !front { EvalMore(p, fuel, cond, f, b.state); }
  }

  lemma {:induction false} TryMore(p: Program, fuel: nat, body: seq<Statement>, catches: seq<Catch>,
                                   noException: OptionalBlock, f: nat, s: State)
    requires f < |s.frames| && !ExecTry(p, fuel, body, catches, noException, f, s).signal.Unfinished?
    ensures ExecTry(p, fuel + 1, body, catches, noException, f, s) == ExecTry(p, fuel, body, catches, noException, f, s)
    decreases fuel, 5, 0
  {
    ExecMore(p, fuel, false, body, f, s);
    var b := Exec(p, fuel, false, body, f, s);
    if b.signal.Thrown? {
      CatchesMore(p, fuel, catches, f, if b.state.exception == [] then Failed(b.state) else b.state);
    } else if b.signal.NextStep? && noException.Given? {
      ExecMore(p, fuel, false, noException.block, f, b.state);
    }
  }

  lemma {:induction false} CatchesMore(p: Program, fuel: nat, catches: seq<Catch>, f: nat, s: State)
    requires f < |s.frames| && !ExecCatches(p, fuel, catches, f, s).signal.Unfinished?
    ensures ExecCatches(p, fuel + 1, catches, f, s) == ExecCatches(p, fuel, catches, f, s)
    decreases fuel, 4, |catches|
  {
    if catches != [] {
      MatchesMore(p, fuel, catches[0], f, s);
      var c := Matches(p, fuel, catches[0], f, s);
      if c.signal.NextStep? && Truth(c.value) {
        HandleMore(p, fuel, catches[0], f, c.state);
      } else if !Stuck(c.signal) {
        CatchesMore(p, fuel, catches[1..], f, c.state);
      }
    }
  }

  lemma {:induction false} MatchesMore(p: Program, fuel: nat, clause: Catch, f: nat, s: State)
    requires f < |s.frames| && !Matches(p, fuel, clause, f, s).signal.Unfinished?
    ensures Matches(p, fuel + 1, clause, f, s) == Matches(p, fuel, clause, f, s)
    decreases fuel, 4, 0
  {
    if clause.cond != [] {
      InvokeMore(p, fuel, Method([Param(clause.name, [])], Single(clause.cond[0])), true,
                 [s.frames[f].this_, Exception(s)], [f], f, s);
    }
  }

  lemma {:induction false} HandleMore(p: Program, fuel: nat, clause: Catch, f: nat, s: State)
    requires f < |s.frames| && !Handle(p, fuel, clause, f, s).signal.Unfinished?
    ensures Handle(p, fuel + 1, clause, f, s) == Handle(p, fuel, clause, f, s)
    decreases fuel, 4, 0
  {
    InvokeMore(p, fuel, Method([Param(clause.name, [])], Code(clause.block)), false,
               [s.frames[f].this_, Exception(s)], [f], f, s.(exception := []));
  }

  lemma {:induction false} ExecMuchMore(p: Program, fuel: nat, more: nat, isRoot: bool, block: seq<Statement>, f: nat,
                                        s: State)
    requires f < |s.frames| && fuel <= more && !Exec(p, fuel, isRoot, block, f, s).signal.Unfinished?
    ensures Exec(p, more, isRoot, block, f, s) == Exec(p, fuel, isRoot, block, f, s)
    decreases more
  {
    if fuel < more {
      ExecMuchMore(p, fuel, more - 1, isRoot, block, f, s);
      ExecMore(p, more - 1, isRoot, block, f, s);
    }
  }

  /** Two runs of a block that both finish end the same way, in the same state, with the same
      value. */
  lemma OneOutcome(p: Program, fuel: nat, other: nat, isRoot: bool, block: seq<Statement>, f: nat, s: State)
    requires f < |s.frames|
    requires !Exec(p, fuel, isRoot, block, f, s).signal.Unfinished?
      && !Exec(p, other, isRoot, block, f, s).signal.Unfinished?
    ensures Exec(p, fuel, isRoot, block, f, s) == Exec(p, other, isRoot, block, f, s)
  {
    if fuel <= other { ExecMuchMore(p, fuel, other, isRoot, block, f, s); }
    else { ExecMuchMore(p, other, fuel, isRoot, block, f, s); }
  }
}
