/** On tidy scripts the executor does what the direct evaluator says. */
module Agreement {
  import opened Script
  import opened Evaluator
  import opened Executor
  import opened Tidy
  import D = Direct

  function Plainly(r: Result): D.Outcome {
    D.Outcome(r.signal, r.value, r.state)
  }

  function PlainlyAll(r: Results): D.Outcomes {
    D.Outcomes(r.signal, if r.signal.NextStep? then r.values else [], r.state)
  }

  lemma {:induction false} EvalAgrees(b: Bounds, k: nat, p: Program, fuel: nat, e: Expr, f: nat, s: State)
    requires f < |s.frames| && TidyProgram(b, p) && TidyState(b, s) && TidyExpr(b, e) && Carries(b, k, e)
    ensures D.Eval(p, fuel, e, f, s) == Plainly(Eval(p, fuel, e, f, s))
    decreases fuel, 0, 0
  {
    if fuel > 0 {
      var less: nat := fuel - 1;
      match e {
        case Assign(outer, x, right) => AssignAgrees(b, p, less, outer, x, right, f, s);
        case Operate(op, left, right) => OperateAgrees(b, p, less, op, left, right, f, s);
        case Call(x, args) => CallAgrees(b, p, less, x, args, f, s);
        case _ =>
      }
      LevelAgrees(p, less, e, f, s);
    }
  }

  lemma LevelAgrees(p: Program, fuel: nat, e: Expr, f: nat, s: State)
    requires f < |s.frames|
    requires match e
      case Assign(outer, x, right) =>
        D.EvalAssign(p, fuel, outer, x, right, f, s) == Plainly(EvalAssign(p, fuel, outer, x, right, f, s))
      case Operate(op, left, right) =>
        D.EvalOperate(p, fuel, op, left, right, f, s) == Plainly(EvalOperate(p, fuel, op, left, right, f, s))
      case Call(x, args) => D.EvalCall(p, fuel, x, args, f, s) == Plainly(EvalCall(p, fuel, x, args, f, s))
      case _ => true
    ensures D.Eval(p, fuel + 1, e, f, s) == Plainly(Eval(p, fuel + 1, e, f, s))
  {
  }

  lemma {:induction false} RunsDirectly(b: Bounds, k: nat, p: Program, fuel: nat, e: Expr, f: nat, s: State)
    requires f < |s.frames| && TidyProgram(b, p) && TidyState(b, s) && TidyExpr(b, e) && Carries(b, k, e)
    ensures D.Eval(p, fuel, e, f, s) == Plainly(Eval(p, fuel, e, f, s)) && TidyResult(b, k, Eval(p, fuel, e, f, s))
    decreases fuel, 0, 1
  {
    EvalAgrees(b, k, p, fuel, e, f, s);
    EvalTidy(b, k, p, fuel, e, f, s);
  }

  lemma {:induction false} AssignAgrees(b: Bounds, p: Program, fuel: nat, outer: bool, x: string, right: Expr, f: nat,
                                        s: State)
    requires f < |s.frames| && TidyProgram(b, p) && TidyState(b, s) && TidyExpr(b, right) && Carries(b, b.At(x), right)
    ensures D.EvalAssign(p, fuel, outer, x, right, f, s) == Plainly(EvalAssign(p, fuel, outer, x, right, f, s))
    decreases fuel, 1, 0
  {
    var (place, s1) := Locate(s, f, outer, x);
    LocatedTidy(b, s, f, outer, x);
    RunsDirectly(b, b.At(x), p, fuel, right, f, s1);
    var r := Eval(p, fuel, right, f, s1);
    if r.signal.NextStep? {
      assert [Ref(place, x)] + r.Operands() == [Ref(place, x), r.value];
    }
  }

  lemma {:induction false} OperateAgrees(b: Bounds, p: Program, fuel: nat, op: Op, left: Expr, right: Expr, f: nat,
                                         s: State)
    requires f < |s.frames| && TidyProgram(b, p) && TidyState(b, s) && TidyExpr(b, left) && TidyExpr(b, right)
    ensures D.EvalOperate(p, fuel, op, left, right, f, s) == Plainly(EvalOperate(p, fuel, op, left, right, f, s))
    decreases fuel, 1, 0
  {
    RunsDirectly(b, 0, p, fuel, left, f, s);
    var l := Eval(p, fuel, left, f, s);
    if l.signal.NextStep? { RunsDirectly(b, 0, p, fuel, right, f, l.state); }
    BothOperands(p, fuel, op, left, right, f, s, l);
  }

  lemma BothOperands(p: Program, fuel: nat, op: Op, left: Expr, right: Expr, f: nat, s: State, l: Result)
    requires f < |s.frames| && l == Eval(p, fuel, left, f, s) && D.Eval(p, fuel, left, f, s) == Plainly(l)
    requires l.signal.NextStep? ==>
      var r := Eval(p, fuel, right, f, l.state);
      && l.left == [] && D.Eval(p, fuel, right, f, l.state) == Plainly(r) && (r.signal.NextStep? ==> r.left == [])
    ensures D.EvalOperate(p, fuel, op, left, right, f, s) == Plainly(EvalOperate(p, fuel, op, left, right, f, s))
  {
    OperateUnfolds(p, fuel, op, left, right, f, s, l);
    if l.signal.NextStep? { OperatedAgrees(op, l, Eval(p, fuel, right, f, l.state)); }
  }

  lemma OperatedAgrees(op: Op, l: Result, r: Result)
    requires IsExprSignal(r.signal) && l.signal.NextStep? && l.left == [] && (r.signal.NextStep? ==> r.left == [])
    ensures D.Operated(op, l.value, Plainly(r)) == Plainly(Operated(op, l, r))
  {
    if r.signal.NextStep? {
      assert l.Operands() + r.Operands() == [l.value, r.value];
    }
  }

  lemma {:induction false} CallAgrees(b: Bounds, p: Program, fuel: nat, x: string, args: seq<Expr>, f: nat, s: State)
    requires f < |s.frames| && TidyProgram(b, p) && TidyState(b, s) && |args| <= b.At(x)
    requires forall a | a in args :: TidyExpr(b, a) && Carries(b, b.rest, a)
    ensures D.EvalCall(p, fuel, x, args, f, s) == Plainly(EvalCall(p, fuel, x, args, f, s))
    decreases fuel, 4, 0
  {
    var c := Resolve(p, x, |args|, f, s);
    ResolvedTidy(b, p, x, |args|, f, s);
    if c.Callee? {
      ArgumentsAgree(b, p, fuel, c.code, args, f, s);
      ArgumentsTidy(b, p, fuel, c.code, args, f, s);
      var given := EvalArguments(p, fuel, c.code, args, f, s);
      if given.signal.NextStep? {
        InvokeAgrees(b, p, fuel, c.code, true, given.values, c.owner, f, given.state);
      }
    }
  }

  lemma {:induction false} ArgumentsAgree(b: Bounds, p: Program, fuel: nat, m: Method, args: seq<Expr>, f: nat,
                                          s: State)
    requires f < |s.frames| && TidyProgram(b, p) && TidyState(b, s) && TidyMethod(b, m) && |args| <= |m.params|
    requires forall a | a in args :: TidyExpr(b, a) && Carries(b, b.rest, a)
    ensures D.EvalArguments(p, fuel, m, args, f, s) == PlainlyAll(EvalArguments(p, fuel, m, args, f, s))
    decreases fuel, 3, 0
  {
    AllAgree(b, p, fuel, args, f, s);
    AllTidy(b, p, fuel, args, f, s);
    var given := EvalAll(p, fuel, args, f, s);
    if given.signal.NextStep? && |args| < |m.params| { DefaultsAgree(b, p, fuel, m.params[|args|..], f, given.state); }
  }

  lemma FirstAgrees(r: Result, rest: Results)
    requires r.signal.NextStep? && r.left == []
    ensures D.First(r.value, PlainlyAll(rest)) == PlainlyAll(rest.Above(r.Operands()))
  {
  }

  lemma {:induction false} AllAgree(b: Bounds, p: Program, fuel: nat, es: seq<Expr>, f: nat, s: State)
    requires f < |s.frames| && TidyProgram(b, p) && TidyState(b, s)
    requires forall e | e in es :: TidyExpr(b, e) && Carries(b, b.rest, e)
    ensures D.EvalAll(p, fuel, es, f, s) == PlainlyAll(EvalAll(p, fuel, es, f, s))
    decreases fuel, 2, |es|
  {
    if es != [] {
      RunsDirectly(b, b.rest, p, fuel, es[0], f, s);
      var r := Eval(p, fuel, es[0], f, s);
      if r.signal.NextStep? {
        AllAgree(b, p, fuel, es[1..], f, r.state);
        FirstAgrees(r, EvalAll(p, fuel, es[1..], f, r.state));
      }
    }
  }

  lemma {:induction false} DefaultsAgree(b: Bounds, p: Program, fuel: nat, params: seq<Param>, f: nat, s: State)
    requires f < |s.frames| && TidyProgram(b, p) && TidyState(b, s) && forall q | q in params :: TidyParam(b, q)
    ensures D.EvalDefaults(p, fuel, params, f, s) == PlainlyAll(EvalDefaults(p, fuel, params, f, s))
    decreases fuel, 2, |params|
  {
    if params != [] && params[0].default != [] {
      assert TidyParam(b, params[0]);
      RunsDirectly(b, b.rest, p, fuel, params[0].default[0], f, s);
      var r := Eval(p, fuel, params[0].default[0], f, s);
      if r.signal.NextStep? {
        DefaultsAgree(b, p, fuel, params[1..], f, r.state);
        FirstAgrees(r, EvalDefaults(p, fuel, params[1..], f, r.state));
      }
    }
  }

  lemma SameFrame(m: Method, values: seq<Value>, self: Value, owner: seq<nat>, f: nat, s: State)
    requires |values| == |m.params|
    ensures D.Entered(m, values, self, owner, f, s) == Entered(m, [self] + values, owner, f, s)
  {
    assert values[..|m.params|] == values && ([self] + values)[1..] == values;
  }

  lemma {:induction false} InvokeAgrees(b: Bounds, p: Program, fuel: nat, m: Method, isRoot: bool, values: seq<Value>,
                                        owner: seq<nat>, f: nat, s: State)
    requires TidyProgram(b, p) && TidyState(b, s) && TidyMethod(b, m)
    requires |values| == |m.params| && TidyValues(b, values)
    ensures D.Invoke(p, fuel, m, isRoot, values, SELF, owner, f, s)
      == Plainly(Invoke(p, fuel, m, isRoot, [SELF] + values, owner, f, s))
    decreases fuel, 3, 0
  {
    SameFrame(m, values, SELF, owner, f, s);
    EnteredTidy(b, m, [SELF] + values, owner, f, s);
    var s1 := Entered(m, [SELF] + values, owner, f, s);
    match m.body {
      case Single(e) => EvalAgrees(b, b.rest, p, fuel, e, |s.frames|, s1);
      case Code(block) => ExecAgrees(b, p, fuel, isRoot, block, |s.frames|, s1);
    }
  }

  lemma {:induction false} ExecAgrees(b: Bounds, p: Program, fuel: nat, isRoot: bool, block: seq<Statement>, f: nat,
                                      s: State)
    requires f < |s.frames| && TidyProgram(b, p) && TidyState(b, s) && TidyBlock(b, block)
    ensures D.Exec(p, fuel, isRoot, block, f, s) == Plainly(Exec(p, fuel, isRoot, block, f, s))
    decreases fuel, 1, 0
  {
    if fuel > 0 { AllStatementsAgree(b, p, fuel - 1, block, f, s); }
  }

  lemma {:induction false} AllStatementsAgree(b: Bounds, p: Program, fuel: nat, block: seq<Statement>, f: nat, s: State)
    requires f < |s.frames| && TidyProgram(b, p) && TidyState(b, s) && TidyBlock(b, block)
    ensures D.ExecAll(p, fuel, block, f, s) == Plainly(ExecAll(p, fuel, block, f, s))
    decreases fuel, 3, |block|
  {
    if block != [] {
      OneAgrees(b, p, fuel, block[0], f, s);
      OneTidy(b, p, fuel, block[0], f, s);
      var r := ExecOne(p, fuel, block[0], f, s);
      if r.signal.NextStep? { AllStatementsAgree(b, p, fuel, block[1..], f, r.state); }
    }
  }

  lemma {:induction false} OneAgrees(b: Bounds, p: Program, fuel: nat, statement: Statement, f: nat, s: State)
    requires f < |s.frames| && TidyProgram(b, p) && TidyState(b, s) && TidyStatement(b, statement)
    ensures D.ExecOne(p, fuel, statement, f, s) == Plainly(ExecOne(p, fuel, statement, f, s))
    decreases fuel, 1, 0
  {
    if fuel > 0 {
      match statement {
        case Do(line) => LineAgrees(b, p, fuel - 1, line, f, s);
        case If(branches) => IfAgrees(b, p, fuel - 1, branches, f, s);
        case While(front, cond, body) => WhileAgrees(b, p, fuel - 1, front, cond, body, f, s);
        case Try(body, catches, noException, finally) =>
          TryAgrees(b, p, fuel - 1, body, catches, noException, f, s);
          TryTidy(b, p, fuel - 1, body, catches, noException, f, s);
          var r := ExecTry(p, fuel - 1, body, catches, noException, f, s);
          if r.signal.NextStep? && finally.Given? { ExecAgrees(b, p, fuel - 1, false, finally.block, f, r.state); }
      }
    }
  }

  lemma {:induction false} LineAgrees(b: Bounds, p: Program, fuel: nat, line: Line, f: nat, s: State)
    requires f < |s.frames| && TidyProgram(b, p) && TidyState(b, s) && TidyLine(b, line)
    ensures D.ExecLine(p, fuel, line, f, s) == Plainly(ExecLine(p, fuel, line, f, s))
    decreases fuel, 2, line
  {
    match line {
      case Plain(e) => EvalAgrees(b, b.rest, p, fuel, e, f, s);
      case Return(e) => EvalAgrees(b, b.rest, p, fuel, e, f, s);
      case Raise(e) => EvalAgrees(b, b.rest, p, fuel, e, f, s);
      case BackIf(inner, cond) =>
        RunsDirectly(b, b.rest, p, fuel, cond, f, s);
        var r := Eval(p, fuel, cond, f, s);
        if r.signal.NextStep? && Truth(r.value) { LineAgrees(b, p, fuel, inner, f, r.state); }
      case _ =>
    }
  }

  lemma {:induction false} IfAgrees(b: Bounds, p: Program, fuel: nat, branches: seq<Branch>, f: nat, s: State)
    requires f < |s.frames| && TidyProgram(b, p) && TidyState(b, s) && forall c | c in branches :: TidyBranch(b, c)
    ensures D.ExecIf(p, fuel, branches, f, s) == Plainly(ExecIf(p, fuel, branches, f, s))
    decreases fuel, 2, |branches|
  {
    if branches != [] {
      assert TidyBranch(b, branches[0]);
      if branches[0].cond == [] {
        ExecAgrees(b, p, fuel, false, branches[0].block, f, s);
      } else {
        RunsDirectly(b, 0, p, fuel, branches[0].cond[0], f, s);
        var c := Eval(p, fuel, branches[0].cond[0], f, s);
        if c.signal.NextStep? {
          if Truth(c.value) { ExecAgrees(b, p, fuel, false, branches[0].block, f, c.state); }
          else { IfAgrees(b, p, fuel, branches[1..], f, c.state); }
        }
      }
    }
  }

  function PlainlyRound(t: (bool, Result)): (bool, D.Outcome) {
    (t.0, Plainly(t.1))
  }

  lemma {:induction false} WhileAgrees(b: Bounds, p: Program, fuel: nat, front: bool, cond: Expr, body: seq<Statement>,
                                       f: nat, s: State)
    requires f < |s.frames| && TidyProgram(b, p) && TidyState(b, s) && TidyExpr(b, cond) && TidyBlock(b, body)
    ensures D.ExecWhile(p, fuel, front, cond, body, f, s) == Plainly(ExecWhile(p, fuel, front, cond, body, f, s))
    decreases fuel, 5, 0
  {
    if fuel > 0 {
      IterateAgrees(b, p, fuel - 1, front, cond, body, f, s);
      IterateTidy(b, p, fuel - 1, front, cond, body, f, s);
      var (again, r) := Iterate(p, fuel - 1, front, cond, body, f, s);
      if again { WhileAgrees(b, p, fuel - 1, front, cond, body, f, r.state); }
    }
  }

  lemma {:induction false} IterateAgrees(b: Bounds, p: Program, fuel: nat, front: bool, cond: Expr,
                                         body: seq<Statement>, f: nat, s: State)
    requires f < |s.frames| && TidyProgram(b, p) && TidyState(b, s) && TidyExpr(b, cond) && TidyBlock(b, body)
    ensures D.Iterate(p, fuel, front, cond, body, f, s) == PlainlyRound(Iterate(p, fuel, front, cond, body, f, s))
    decreases fuel, 4, 0
  {
    if !front {
      BodyAgrees(b, p, fuel, false, cond, body, f, s);
    } else {
      RunsDirectly(b, 0, p, fuel, cond, f, s);
      var c := Eval(p, fuel, cond, f, s);
      if c.signal.NextStep? && Truth(c.value) { BodyAgrees(b, p, fuel, true, cond, body, f, c.state); }
    }
  }

  lemma {:induction false} BodyAgrees(b: Bounds, p: Program, fuel: nat, front: bool, cond: Expr, body: seq<Statement>,
                                      f: nat, s: State)
    requires f < |s.frames| && TidyProgram(b, p) && TidyState(b, s) && TidyExpr(b, cond) && TidyBlock(b, body)
    ensures D.AfterBody(p, fuel, front, cond, f, D.Exec(p, fuel, false, body, f, s))
      == PlainlyRound(IterateBody(p, fuel, front, cond, body, f, s))
    decreases fuel, 3, 0
  {
    ExecAgrees(b, p, fuel, false, body, f, s);
    ExecTidy(b, p, fuel, false, body, f, s);
    var r := Exec(p, fuel, false, body, f, s);
    if r.signal.NextStep? && !front { EvalAgrees(b, 0, p, fuel, cond, f, r.state); }
    TestAgrees(p, fuel, front, cond, f, r);
  }

  lemma TestAgrees(p: Program, fuel: nat, front: bool, cond: Expr, f: nat, r: Result)
    requires f < |r.state.frames|
    requires r.signal.NextStep? && !front ==>
      D.Eval(p, fuel, cond, f, r.state) == Plainly(Eval(p, fuel, cond, f, r.state))
    ensures D.AfterBody(p, fuel, front, cond, f, Plainly(r)) == PlainlyRound(AfterBody(p, fuel, front, cond, f, r))
  {
  }

  lemma {:induction false} TryAgrees(b: Bounds, p: Program, fuel: nat, body: seq<Statement>, catches: seq<Catch>,
                                     noException: OptionalBlock, f: nat, s: State)
    requires f < |s.frames| && TidyProgram(b, p) && TidyState(b, s) && TidyBlock(b, body)
    requires (forall c | c in catches :: TidyCatch(b, c)) && (noException.Given? ==> TidyBlock(b, noException.block))
    ensures D.ExecTry(p, fuel, body, catches, noException, f, s)
      == Plainly(ExecTry(p, fuel, body, catches, noException, f, s))
    decreases fuel, 5, 0
  {
    ExecAgrees(b, p, fuel, false, body, f, s);
    ExecTidy(b, p, fuel, false, body, f, s);
    var r := Exec(p, fuel, false, body, f, s);
    if r.signal.Thrown? {
      CatchesAgree(b, p, fuel, catches, f, if r.state.exception == [] then Failed(r.state) else r.state);
    } else if r.signal.NextStep? && noException.Given? {
      ExecAgrees(b, p, fuel, false, noException.block, f, r.state);
    }
  }

  lemma {:induction false} CatchesAgree(b: Bounds, p: Program, fuel: nat, catches: seq<Catch>, f: nat, s: State)
    requires f < |s.frames| && TidyProgram(b, p) && TidyState(b, s) && forall c | c in catches :: TidyCatch(b, c)
    ensures D.ExecCatches(p, fuel, catches, f, s) == Plainly(ExecCatches(p, fuel, catches, f, s))
    decreases fuel, 4, |catches|
  {
    if catches != [] {
      assert TidyCatch(b, catches[0]);
      MatchesAgrees(b, p, fuel, catches[0], f, s);
      MatchesTidy(b, p, fuel, catches[0], f, s);
      var c := Matches(p, fuel, catches[0], f, s);
      if c.signal.NextStep? {
        if Truth(c.value) { HandleAgrees(b, p, fuel, catches[0], f, c.state); }
        else { CatchesAgree(b, p, fuel, catches[1..], f, c.state); }
      }
    }
  }

  lemma {:induction false} MatchesAgrees(b: Bounds, p: Program, fuel: nat, clause: Catch, f: nat, s: State)
    requires f < |s.frames| && TidyProgram(b, p) && TidyState(b, s) && TidyCatch(b, clause)
    ensures D.Matches(p, fuel, clause, f, s) == Plainly(Matches(p, fuel, clause, f, s))
    decreases fuel, 4, 0
  {
    if clause.cond != [] {
      AskedWith(b, f, s);
      InvokeAgrees(b, p, fuel, Method([Param(clause.name, [])], Single(clause.cond[0])), true, [Exception(s)], [f], f,
                   s);
      assert [SELF] + [Exception(s)] == [SELF, Exception(s)];
    }
  }

  lemma {:induction false} HandleAgrees(b: Bounds, p: Program, fuel: nat, clause: Catch, f: nat, s: State)
    requires f < |s.frames| && TidyProgram(b, p) && TidyState(b, s) && TidyCatch(b, clause)
    ensures D.Handle(p, fuel, clause, f, s) == Plainly(Handle(p, fuel, clause, f, s))
    decreases fuel, 4, 0
  {
    AskedWith(b, f, s);
    InvokeAgrees(b, p, fuel, Method([Param(clause.name, [])], Code(clause.block)), false, [Exception(s)], [f], f,
                 s.(exception := []));
    assert [SELF] + [Exception(s)] == [SELF, Exception(s)];
  }

  /** A run of Executor.Vm.ExecuteBlock on a tidy script: result code, state and returned value are
      those of the direct evaluator, and the stack is back, with that value on it. */
  lemma BlocksRunDirectly(b: Bounds, p: Program, fuel: nat, isRoot: bool, block: seq<Statement>, f: nat, s: State,
                          before: seq<Value>, after: seq<Value>, signal: Signal, now: State)
    requires f < |s.frames| && TidyProgram(b, p) && TidyState(b, s) && TidyBlock(b, block)
    requires BlockFits(before, after, signal, now, Exec(p, fuel, isRoot, block, f, s))
    ensures var d := D.Exec(p, fuel, isRoot, block, f, s);
      && signal == d.signal && now == d.state
      && (!signal.Unfinished? ==> after == if signal.Returned? then before + [d.value] else before)
  {
    ExecAgrees(b, p, fuel, isRoot, block, f, s);
    ExecTidy(b, p, fuel, isRoot, block, f, s);
  }

  /** Likewise an expression. */
  lemma ExpressionsRunDirectly(b: Bounds, p: Program, fuel: nat, e: Expr, f: nat, s: State,
                               before: seq<Value>, after: seq<Value>, signal: Signal, now: State)
    requires f < |s.frames| && TidyProgram(b, p) && TidyState(b, s) && TidyExpr(b, e)
    requires ExprFits(before, after, signal, now, Eval(p, fuel, e, f, s))
    ensures var d := D.Eval(p, fuel, e, f, s);
      signal == d.signal && now == d.state && (signal.NextStep? ==> after == before + [d.value])
  {
    RunsDirectly(b, 0, p, fuel, e, f, s);
  }
}
