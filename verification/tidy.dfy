/** Scripts that leave no operand behind: on them the stack discipline holds without exception. Whether
    a script is one of them can be read off its text. */
module Tidy {
  import opened Script
  import opened Evaluator
  import opened Control
  import opened Executor

  /** How many parameters the nodes have, at least, that a variable can hold; and those that are
      passed, returned or thrown. */
  datatype Bounds = Bounds(of: map<string, nat>, rest: nat) {
    function At(x: string): nat {
      if x in of then of[x] else rest
    }
  }

  /** Expressions that never throw and leave nothing but their value: no calls, and no operators but those
      that every value has. */
  predicate Quiet(e: Expr) {
    match e
    case Assign(_, _, right) => Quiet(right)
    case Operate(op, left, right) => IsLogical(op) && Quiet(left) && Quiet(right)
    case Call(_, _) => false
    case _ => true
  }

  /** The nodes that an expression can be worth have at least k parameters. */
  predicate Carries(b: Bounds, k: nat, e: Expr) {
    match e
    case Name(_, x) => k <= b.At(x)
    case Call(_, _) => k <= b.rest
    case Lambda(code) => k <= |code.params|
    case _ => true
  }

  // ----- tidy texts: no call has more arguments than what its name can stand for has parameters, and
  // ----- catch conditions are quiet

  predicate TidyExpr(b: Bounds, e: Expr) {
    match e
    case Assign(_, x, right) => TidyExpr(b, right) && Carries(b, b.At(x), right)
    case Operate(_, left, right) => TidyExpr(b, left) && TidyExpr(b, right)
    case Call(x, args) => |args| <= b.At(x) && forall a | a in args :: TidyExpr(b, a) && Carries(b, b.rest, a)
    case Lambda(code) => TidyMethod(b, code)
    case _ => true
  }

  predicate TidyMethod(b: Bounds, m: Method) {
    && (forall q | q in m.params :: TidyParam(b, q))
    && match m.body
       case Code(block) => TidyBlock(b, block)
       case Single(e) => TidyExpr(b, e) && Carries(b, b.rest, e)
  }

  predicate TidyParam(b: Bounds, q: Param) {
    b.At(q.name) <= b.rest && (q.default != [] ==> TidyExpr(b, q.default[0]) && Carries(b, b.rest, q.default[0]))
  }

  predicate TidyBlock(b: Bounds, block: seq<Statement>) {
    forall c | c in block :: TidyStatement(b, c)
  }

  predicate TidyLine(b: Bounds, line: Line) {
    match line
    case Plain(e) => TidyExpr(b, e) && Carries(b, b.rest, e)
    case Return(e) => TidyExpr(b, e) && Carries(b, b.rest, e)
    case Raise(e) => TidyExpr(b, e) && Carries(b, b.rest, e)
    case BackIf(inner, cond) => TidyLine(b, inner) && TidyExpr(b, cond) && Carries(b, b.rest, cond)
    case _ => true
  }

  predicate TidyBranch(b: Bounds, branch: Branch) {
    (branch.cond != [] ==> TidyExpr(b, branch.cond[0])) && TidyBlock(b, branch.block)
  }

  predicate TidyCatch(b: Bounds, c: Catch) {
    && b.At(c.name) <= b.rest && TidyBlock(b, c.block)
    && (c.cond != [] ==> TidyExpr(b, c.cond[0]) && Carries(b, b.rest, c.cond[0]) && Quiet(c.cond[0]))
  }

  predicate TidyStatement(b: Bounds, statement: Statement) {
    match statement
    case Do(line) => TidyLine(b, line)
    case If(branches) => forall c | c in branches :: TidyBranch(b, c)
    case While(_, cond, body) => TidyExpr(b, cond) && TidyBlock(b, body)
    case Try(body, catches, noException, finally) =>
      && TidyBlock(b, body) && (forall c | c in catches :: TidyCatch(b, c))
      && (noException.Given? ==> TidyBlock(b, noException.block)) && (finally.Given? ==> TidyBlock(b, finally.block))
  }

  predicate TidyProgram(b: Bounds, p: Program) {
    forall x | x in p :: TidyMethod(b, p[x])
  }

  // ----- tidy states: all code in them is tidy, and code runs on the script's own object -----

  predicate TidyValue(b: Bounds, k: nat, v: Value) {
    v.Node? ==> k <= |v.code.params| && TidyMethod(b, v.code) && v.self == SELF
  }

  predicate TidyValues(b: Bounds, vs: seq<Value>) {
    forall i :: 0 <= i < |vs| ==> TidyValue(b, b.rest, vs[i])
  }

  predicate TidyTable(b: Bounds, t: map<string, Value>) {
    forall x | x in t :: TidyValue(b, b.At(x), t[x])
  }

  predicate TidyFrame(b: Bounds, fr: Frame) {
    (fr.locals != [] ==> TidyTable(b, fr.locals[0])) && fr.this_ == SELF && TidyValue(b, b.rest, fr.last)
  }

  predicate TidyState(b: Bounds, s: State) {
    && (forall i :: 0 <= i < |s.frames| ==> TidyFrame(b, s.frames[i]))
    && TidyTable(b, s.globals) && TidyValues(b, s.exception)
  }

  /** An expression leaves its value and nothing else. */
  predicate TidyResult(b: Bounds, k: nat, r: Result) {
    TidyState(b, r.state) && !r.signal.Undefined? && (r.signal.NextStep? ==> r.left == [] && TidyValue(b, k, r.value))
  }

  /** A list of n expressions leaves n values. */
  predicate TidyResults(b: Bounds, n: nat, r: Results) {
    TidyState(b, r.state) && !r.signal.Undefined? && (r.signal.NextStep? ==> |r.values| == n && TidyValues(b, r.values))
  }

  /** A statement leaves nothing, but what it returns or has not used when it throws. */
  predicate TidyEnd(b: Bounds, r: Result) {
    && TidyState(b, r.state) && !r.signal.Undefined? && (r.signal.Returned? ==> TidyValue(b, b.rest, r.value))
    && (r.signal.Thrown? || r.signal.Unfinished? || r.left == [])
  }

  // ----- quiet expressions -----

  lemma {:induction false} QuietEnds(p: Program, fuel: nat, e: Expr, f: nat, s: State)
    requires f < |s.frames| && Quiet(e)
    ensures QuietResult(Eval(p, fuel, e, f, s))
    decreases e, 1
  {
    if fuel > 0 {
      match e {
        case Assign(outer, x, right) => QuietAssign(p, fuel - 1, outer, x, right, f, s);
        case Operate(op, left, right) => QuietOperate(p, fuel - 1, op, left, right, f, s);
        case _ =>
      }
    }
  }

  predicate QuietResult(r: Result) {
    !r.signal.Thrown? && (r.signal.NextStep? ==> r.left == [])
  }

  lemma {:induction false} QuietAssign(p: Program, fuel: nat, outer: bool, x: string, right: Expr, f: nat, s: State)
    requires f < |s.frames| && Quiet(right)
    ensures QuietResult(EvalAssign(p, fuel, outer, x, right, f, s))
    decreases right, 2
  {
    var (place, s1) := Locate(s, f, outer, x);
    QuietEnds(p, fuel, right, f, s1);
    var r := Eval(p, fuel, right, f, s1);
    if r.signal.NextStep? {
      assert [Ref(place, x)] + r.Operands() == [Ref(place, x), r.value];
    }
  }

  lemma {:induction false} QuietOperate(p: Program, fuel: nat, op: Op, left: Expr, right: Expr, f: nat, s: State)
    requires f < |s.frames| && IsLogical(op) && Quiet(left) && Quiet(right)
    ensures QuietResult(EvalOperate(p, fuel, op, left, right, f, s))
    decreases Operate(op, left, right), 0
  {
    QuietEnds(p, fuel, left, f, s);
    var l := Eval(p, fuel, left, f, s);
    OperateUnfolds(p, fuel, op, left, right, f, s, l);
    if l.signal.NextStep? {
      QuietEnds(p, fuel, right, f, l.state);
      QuietOperated(op, l, Eval(p, fuel, right, f, l.state));
    }
  }

  lemma QuietOperated(op: Op, l: Result, r: Result)
    requires IsLogical(op) && IsExprSignal(r.signal) && l.signal.NextStep? && QuietResult(l) && QuietResult(r)
    ensures QuietResult(Operated(op, l, r))
  {
    if r.signal.NextStep? {
      assert l.Operands() + r.Operands() == [l.value, r.value];
    }
  }

  // ----- steps -----

  lemma WrittenTidy(b: Bounds, s: State, place: Place, x: string, v: Value)
    requires TidyState(b, s) && TidyValue(b, b.At(x), v)
    ensures TidyState(b, Write(s, place, x, v))
  {
  }

  lemma ReadTidy(b: Bounds, s: State, place: Place, x: string)
    requires TidyState(b, s)
    ensures TidyValue(b, b.At(x), Read(s, place, x))
  {
  }

  lemma LocatedTidy(b: Bounds, s: State, f: nat, outer: bool, x: string)
    requires TidyState(b, s) && f < |s.frames|
    ensures TidyState(b, Locate(s, f, outer, x).1)
  {
    WrittenTidy(b, s, Local(Base(s, f, outer)), x, Int(0));
  }

  lemma {:induction false} BoundTidy(b: Bounds, params: seq<Param>, values: seq<Value>)
    requires |params| == |values| && TidyValues(b, values) && forall q | q in params :: b.At(q.name) <= b.rest
    ensures TidyTable(b, Bind(params, values))
  {
    if params != [] {
      assert params[0] in params;
      BoundTidy(b, params[1..], values[1..]);
    }
  }

  lemma EnteredTidy(b: Bounds, m: Method, pushed: seq<Value>, owner: seq<nat>, f: nat, s: State)
    requires TidyState(b, s) && TidyMethod(b, m)
    requires |pushed| == |m.params| + 1 && pushed[0] == SELF && TidyValues(b, pushed)
    ensures TidyState(b, Entered(m, pushed, owner, f, s))
  {
    forall q | q in m.params ensures b.At(q.name) <= b.rest {
      assert TidyParam(b, q);
    }
    BoundTidy(b, m.params, pushed[1..]);
  }

  /** A node is called with no more arguments than it has parameters, and methods always are. */
  lemma ResolvedTidy(b: Bounds, p: Program, x: string, k: nat, f: nat, s: State)
    requires f < |s.frames| && TidyState(b, s) && TidyProgram(b, p) && k <= b.At(x)
    ensures var c := Resolve(p, x, k, f, s);
      !c.UnknownCallee? && (c.Callee? ==> TidyMethod(b, c.code) && c.self == SELF && k <= |c.code.params|)
  {
    var found := Find(s, f, x, false);
    if found != [] {
      ReadTidy(b, s, found[0], x);
    } else {
      assert TidyFrame(b, s.frames[f]);
    }
  }

  // ----- every evaluation -----

  lemma {:induction false} EvalTidy(b: Bounds, k: nat, p: Program, fuel: nat, e: Expr, f: nat, s: State)
    requires f < |s.frames| && TidyProgram(b, p) && TidyState(b, s) && TidyExpr(b, e) && Carries(b, k, e)
    ensures TidyResult(b, k, Eval(p, fuel, e, f, s))
    decreases fuel, 0, 0
  {
    if fuel > 0 {
      match e {
        case Name(outer, x) =>
          LocatedTidy(b, s, f, outer, x);
          ReadTidy(b, Locate(s, f, outer, x).1, Locate(s, f, outer, x).0, x);
        case Assign(outer, x, right) => AssignTidy(b, k, p, fuel - 1, outer, x, right, f, s);
        case Operate(op, left, right) => OperateTidy(b, k, p, fuel - 1, op, left, right, f, s);
        case Call(x, args) => CallTidy(b, p, fuel - 1, x, args, f, s);
        case Lambda(code) => assert TidyFrame(b, s.frames[f]);
        case _ =>
      }
    }
  }

  lemma {:induction false} AssignTidy(b: Bounds, k: nat, p: Program, fuel: nat, outer: bool, x: string, right: Expr,
                                      f: nat, s: State)
    requires f < |s.frames| && TidyProgram(b, p) && TidyState(b, s) && TidyExpr(b, right) && Carries(b, b.At(x), right)
    ensures TidyResult(b, k, EvalAssign(p, fuel, outer, x, right, f, s))
    decreases fuel, 1, 0
  {
    var (place, s1) := Locate(s, f, outer, x);
    LocatedTidy(b, s, f, outer, x);
    EvalTidy(b, b.At(x), p, fuel, right, f, s1);
    var r := Eval(p, fuel, right, f, s1);
    if r.signal.NextStep? {
      assert [Ref(place, x)] + r.Operands() == [Ref(place, x), r.value];
      WrittenTidy(b, r.state, place, x, r.value);
    }
  }

  lemma {:induction false} OperateTidy(b: Bounds, k: nat, p: Program, fuel: nat, op: Op, left: Expr, right: Expr,
                                       f: nat, s: State)
    requires f < |s.frames| && TidyProgram(b, p) && TidyState(b, s) && TidyExpr(b, left) && TidyExpr(b, right)
    ensures TidyResult(b, k, EvalOperate(p, fuel, op, left, right, f, s))
    decreases fuel, 1, 0
  {
    EvalTidy(b, 0, p, fuel, left, f, s);
    var l := Eval(p, fuel, left, f, s);
    OperateUnfolds(p, fuel, op, left, right, f, s, l);
    if l.signal.NextStep? {
      EvalTidy(b, 0, p, fuel, right, f, l.state);
      OperatedTidy(b, k, op, l, Eval(p, fuel, right, f, l.state));
    }
  }

  lemma OperatedTidy(b: Bounds, k: nat, op: Op, l: Result, r: Result)
    requires IsExprSignal(r.signal) && l.signal.NextStep? && TidyResult(b, 0, l) && TidyResult(b, 0, r)
    ensures TidyResult(b, k, Operated(op, l, r))
  {
    if r.signal.NextStep? {
      assert l.Operands() + r.Operands() == [l.value, r.value];
    }
  }

  lemma {:induction false} CallTidy(b: Bounds, p: Program, fuel: nat, x: string, args: seq<Expr>, f: nat, s: State)
    requires f < |s.frames| && TidyProgram(b, p) && TidyState(b, s) && |args| <= b.At(x)
    requires forall a | a in args :: TidyExpr(b, a) && Carries(b, b.rest, a)
    ensures TidyResult(b, b.rest, EvalCall(p, fuel, x, args, f, s))
    decreases fuel, 4, 0
  {
    var callee := Resolve(p, x, |args|, f, s);
    ResolvedTidy(b, p, x, |args|, f, s);
    if callee.Callee? {
      ArgumentsTidy(b, p, fuel, callee.code, args, f, s);
      var pushed := EvalArguments(p, fuel, callee.code, args, f, s).Above([callee.self]);
      if pushed.signal.NextStep? {
        InvokeTidy(b, p, fuel, callee.code, true, pushed.values, callee.owner, f, pushed.state);
      }
    }
  }

  lemma {:induction false} ArgumentsTidy(b: Bounds, p: Program, fuel: nat, m: Method, args: seq<Expr>, f: nat, s: State)
    requires f < |s.frames| && TidyProgram(b, p) && TidyState(b, s) && TidyMethod(b, m) && |args| <= |m.params|
    requires forall a | a in args :: TidyExpr(b, a) && Carries(b, b.rest, a)
    ensures TidyResults(b, |m.params|, EvalArguments(p, fuel, m, args, f, s))
    decreases fuel, 3, 0
  {
    AllTidy(b, p, fuel, args, f, s);
    var given := EvalAll(p, fuel, args, f, s);
    if given.signal.NextStep? && |args| < |m.params| { DefaultsTidy(b, p, fuel, m.params[|args|..], f, given.state); }
  }

  lemma {:induction false} AllTidy(b: Bounds, p: Program, fuel: nat, es: seq<Expr>, f: nat, s: State)
    requires f < |s.frames| && TidyProgram(b, p) && TidyState(b, s)
    requires forall e | e in es :: TidyExpr(b, e) && Carries(b, b.rest, e)
    ensures TidyResults(b, |es|, EvalAll(p, fuel, es, f, s))
    decreases fuel, 2, |es|
  {
    if es != [] {
      EvalTidy(b, b.rest, p, fuel, es[0], f, s);
      var r := Eval(p, fuel, es[0], f, s);
      if r.signal.NextStep? { AllTidy(b, p, fuel, es[1..], f, r.state); }
    }
  }

  lemma {:induction false} DefaultsTidy(b: Bounds, p: Program, fuel: nat, params: seq<Param>, f: nat, s: State)
    requires f < |s.frames| && TidyProgram(b, p) && TidyState(b, s) && forall q | q in params :: TidyParam(b, q)
    ensures TidyResults(b, |params|, EvalDefaults(p, fuel, params, f, s))
    decreases fuel, 2, |params|
  {
    if params != [] && params[0].default != [] {
      assert TidyParam(b, params[0]);
      EvalTidy(b, b.rest, p, fuel, params[0].default[0], f, s);
      var r := Eval(p, fuel, params[0].default[0], f, s);
      if r.signal.NextStep? { DefaultsTidy(b, p, fuel, params[1..], f, r.state); }
    }
  }

  lemma {:induction false} InvokeTidy(b: Bounds, p: Program, fuel: nat, m: Method, isRoot: bool, pushed: seq<Value>,
                                      owner: seq<nat>, f: nat, s: State)
    requires TidyProgram(b, p) && TidyState(b, s) && TidyMethod(b, m)
    requires |pushed| == |m.params| + 1 && pushed[0] == SELF && TidyValues(b, pushed)
    ensures var r := Invoke(p, fuel, m, isRoot, pushed, owner, f, s);
      if isRoot || m.body.Single? then TidyResult(b, b.rest, r) else TidyEnd(b, r)
    decreases fuel, 3, 0
  {
    EnteredTidy(b, m, pushed, owner, f, s);
    var s1 := Entered(m, pushed, owner, f, s);
    AboveNothing(EvalBody(p, fuel, m.body, isRoot, |s.frames|, s1));
    match m.body {
      case Single(e) => EvalTidy(b, b.rest, p, fuel, e, |s.frames|, s1);
      case Code(block) => ExecTidy(b, p, fuel, isRoot, block, |s.frames|, s1);
    }
  }

  lemma {:induction false} ExecTidy(b: Bounds, p: Program, fuel: nat, isRoot: bool, block: seq<Statement>, f: nat,
                                    s: State)
    requires f < |s.frames| && TidyProgram(b, p) && TidyState(b, s) && TidyBlock(b, block)
    ensures var r := Exec(p, fuel, isRoot, block, f, s); TidyEnd(b, r) && (r.signal.Thrown? ==> r.left == [])
    decreases fuel, 1, 0
  {
    if fuel > 0 {
      AllStatementsTidy(b, p, fuel - 1, block, f, s);
      assert TidyFrame(b, ExecAll(p, fuel - 1, block, f, s).state.frames[f]);
    }
  }

  lemma {:induction false} AllStatementsTidy(b: Bounds, p: Program, fuel: nat, block: seq<Statement>, f: nat, s: State)
    requires f < |s.frames| && TidyProgram(b, p) && TidyState(b, s) && TidyBlock(b, block)
    ensures TidyEnd(b, ExecAll(p, fuel, block, f, s))
    decreases fuel, 3, |block|
  {
    if block != [] {
      OneTidy(b, p, fuel, block[0], f, s);
      var r := ExecOne(p, fuel, block[0], f, s);
      if r.signal.NextStep? { AllStatementsTidy(b, p, fuel, block[1..], f, r.state); }
    }
  }

  lemma {:induction false} OneTidy(b: Bounds, p: Program, fuel: nat, statement: Statement, f: nat, s: State)
    requires f < |s.frames| && TidyProgram(b, p) && TidyState(b, s) && TidyStatement(b, statement)
    ensures TidyEnd(b, ExecOne(p, fuel, statement, f, s))
    decreases fuel, 1, 0
  {
    if fuel > 0 {
      match statement {
        case Do(line) =>
          LineTidy(b, p, fuel - 1, line, f, s);
          KeptTidy(b, ExecLine(p, fuel - 1, line, f, s), f);
        case If(branches) => IfTidy(b, p, fuel - 1, branches, f, s);
        case While(front, cond, body) => WhileTidy(b, p, fuel - 1, front, cond, body, f, s);
        case Try(body, catches, noException, finally) =>
          TryTidy(b, p, fuel - 1, body, catches, noException, f, s);
          var r := ExecTry(p, fuel - 1, body, catches, noException, f, s);
          if r.signal.NextStep? && finally.Given? { ExecTidy(b, p, fuel - 1, false, finally.block, f, r.state); }
      }
    }
  }

  /** A line leaves its value and nothing else. */
  predicate TidyLineEnd(b: Bounds, r: Result) {
    TidyEnd(b, r) && (r.signal.NextStep? ==> TidyValue(b, b.rest, r.value))
  }

  lemma KeptTidy(b: Bounds, r: Result, f: nat)
    requires TidyLineEnd(b, r)
    ensures TidyEnd(b, Keep(r, f))
  {
  }

  lemma {:induction false} LineTidy(b: Bounds, p: Program, fuel: nat, line: Line, f: nat, s: State)
    requires f < |s.frames| && TidyProgram(b, p) && TidyState(b, s) && TidyLine(b, line)
    ensures TidyLineEnd(b, ExecLine(p, fuel, line, f, s))
    decreases fuel, 2, line
  {
    match line {
      case Plain(e) => EvalTidy(b, b.rest, p, fuel, e, f, s);
      case Return(e) => EvalTidy(b, b.rest, p, fuel, e, f, s);
      case Raise(e) => EvalTidy(b, b.rest, p, fuel, e, f, s);
      case BackIf(inner, cond) =>
        EvalTidy(b, b.rest, p, fuel, cond, f, s);
        var r := Eval(p, fuel, cond, f, s);
        if r.signal.NextStep? && Truth(r.value) { LineTidy(b, p, fuel, inner, f, r.state); }
      case _ =>
    }
  }

  lemma {:induction false} IfTidy(b: Bounds, p: Program, fuel: nat, branches: seq<Branch>, f: nat, s: State)
    requires f < |s.frames| && TidyProgram(b, p) && TidyState(b, s) && forall c | c in branches :: TidyBranch(b, c)
    ensures TidyEnd(b, ExecIf(p, fuel, branches, f, s))
    decreases fuel, 2, |branches|
  {
    if branches != [] {
      assert TidyBranch(b, branches[0]);
      if branches[0].cond == [] {
        ExecTidy(b, p, fuel, false, branches[0].block, f, s);
      } else {
        EvalTidy(b, 0, p, fuel, branches[0].cond[0], f, s);
        var c := Eval(p, fuel, branches[0].cond[0], f, s);
        if c.signal.NextStep? {
          if Truth(c.value) { ExecTidy(b, p, fuel, false, branches[0].block, f, c.state); }
          else { IfTidy(b, p, fuel, branches[1..], f, c.state); }
        }
      }
    }
  }

  lemma {:induction false} WhileTidy(b: Bounds, p: Program, fuel: nat, front: bool, cond: Expr, body: seq<Statement>,
                                     f: nat, s: State)
    requires f < |s.frames| && TidyProgram(b, p) && TidyState(b, s) && TidyExpr(b, cond) && TidyBlock(b, body)
    ensures TidyEnd(b, ExecWhile(p, fuel, front, cond, body, f, s))
    decreases fuel, 5, 0
  {
    if fuel > 0 {
      IterateTidy(b, p, fuel - 1, front, cond, body, f, s);
      var (again, r) := Iterate(p, fuel - 1, front, cond, body, f, s);
      if again { WhileTidy(b, p, fuel - 1, front, cond, body, f, r.state); }
    }
  }

  lemma {:induction false} IterateTidy(b: Bounds, p: Program, fuel: nat, front: bool, cond: Expr, body: seq<Statement>,
                                       f: nat, s: State)
    requires f < |s.frames| && TidyProgram(b, p) && TidyState(b, s) && TidyExpr(b, cond) && TidyBlock(b, body)
    ensures var (again, r) := Iterate(p, fuel, front, cond, body, f, s); TidyEnd(b, r) && (again ==> r.left == [])
    decreases fuel, 4, 0
  {
    if !front {
      IterateBodyTidy(b, p, fuel, false, cond, body, f, s);
    } else {
      EvalTidy(b, 0, p, fuel, cond, f, s);
      var c := Eval(p, fuel, cond, f, s);
      if c.signal.NextStep? && Truth(c.value) { IterateBodyTidy(b, p, fuel, true, cond, body, f, c.state); }
    }
  }

  lemma {:induction false} IterateBodyTidy(b: Bounds, p: Program, fuel: nat, front: bool, cond: Expr,
                                           body: seq<Statement>, f: nat, s: State)
    requires f < |s.frames| && TidyProgram(b, p) && TidyState(b, s) && TidyExpr(b, cond) && TidyBlock(b, body)
    ensures var (again, r) := IterateBody(p, fuel, front, cond, body, f, s); TidyEnd(b, r) && (again ==> r.left == [])
    decreases fuel, 3, 0
  {
    ExecTidy(b, p, fuel, false, body, f, s);
    var r := Exec(p, fuel, false, body, f, s);
    if r.signal.NextStep? && !front { EvalTidy(b, 0, p, fuel, cond, f, r.state); }
  }

  lemma {:induction false} TryTidy(b: Bounds, p: Program, fuel: nat, body: seq<Statement>, catches: seq<Catch>,
                                   noException: OptionalBlock, f: nat, s: State)
    requires f < |s.frames| && TidyProgram(b, p) && TidyState(b, s) && TidyBlock(b, body)
    requires (forall c | c in catches :: TidyCatch(b, c)) && (noException.Given? ==> TidyBlock(b, noException.block))
    ensures TidyEnd(b, ExecTry(p, fuel, body, catches, noException, f, s))
    decreases fuel, 5, 0
  {
    ExecTidy(b, p, fuel, false, body, f, s);
    var r := Exec(p, fuel, false, body, f, s);
    if r.signal.Thrown? {
      CatchesTidy(b, p, fuel, catches, f, if r.state.exception == [] then Failed(r.state) else r.state);
    } else if r.signal.NextStep? && noException.Given? {
      ExecTidy(b, p, fuel, false, noException.block, f, r.state);
    }
  }

  lemma {:induction false} CatchesTidy(b: Bounds, p: Program, fuel: nat, catches: seq<Catch>, f: nat, s: State)
    requires f < |s.frames| && TidyProgram(b, p) && TidyState(b, s) && forall c | c in catches :: TidyCatch(b, c)
    ensures TidyEnd(b, ExecCatches(p, fuel, catches, f, s))
    decreases fuel, 4, |catches|
  {
    if catches != [] {
      assert TidyCatch(b, catches[0]);
      MatchesTidy(b, p, fuel, catches[0], f, s);
      var c := Matches(p, fuel, catches[0], f, s);
      if c.signal.NextStep? {
        if Truth(c.value) { HandleTidy(b, p, fuel, catches[0], f, c.state); }
        else { CatchesTidy(b, p, fuel, catches[1..], f, c.state); }
      }
    }
  }

  lemma AskedWith(b: Bounds, f: nat, s: State)
    requires f < |s.frames| && TidyState(b, s)
    ensures s.frames[f].this_ == SELF && TidyValues(b, [SELF, Exception(s)]) && TidyState(b, s.(exception := []))
  {
    assert TidyFrame(b, s.frames[f]);
  }

  /** A quiet condition is asked without an exception. */
  lemma {:induction false} MatchesTidy(b: Bounds, p: Program, fuel: nat, clause: Catch, f: nat, s: State)
    requires f < |s.frames| && TidyProgram(b, p) && TidyState(b, s) && TidyCatch(b, clause)
    ensures TidyResult(b, 0, Matches(p, fuel, clause, f, s)) && !Matches(p, fuel, clause, f, s).signal.Thrown?
    decreases fuel, 4, 0
  {
    if clause.cond != [] {
      var m := Method([Param(clause.name, [])], Single(clause.cond[0]));
      AskedWith(b, f, s);
      InvokeTidy(b, p, fuel, m, true, [SELF, Exception(s)], [f], f, s);
      QuietEnds(p, fuel, clause.cond[0], |s.frames|, Entered(m, [SELF, Exception(s)], [f], f, s));
    }
  }

  lemma {:induction false} HandleTidy(b: Bounds, p: Program, fuel: nat, clause: Catch, f: nat, s: State)
    requires f < |s.frames| && TidyProgram(b, p) && TidyState(b, s) && TidyCatch(b, clause)
    ensures TidyEnd(b, Handle(p, fuel, clause, f, s))
    decreases fuel, 4, 0
  {
    var m := Method([Param(clause.name, [])], Code(clause.block));
    AskedWith(b, f, s);
    InvokeTidy(b, p, fuel, m, false, [SELF, Exception(s)], [f], f, s.(exception := []));
  }

  /** The stack discipline: when a block of a tidy script has run, the returned value is on the stack
      and nothing else. */
  lemma TidyBlocksFit(b: Bounds, p: Program, fuel: nat, isRoot: bool, block: seq<Statement>, f: nat, s: State,
                      before: seq<Value>, after: seq<Value>, signal: Signal, now: State)
    requires f < |s.frames| && TidyProgram(b, p) && TidyState(b, s) && TidyBlock(b, block)
    requires BlockFits(before, after, signal, now, Exec(p, fuel, isRoot, block, f, s))
    ensures !signal.Undefined? && TidyState(b, now)
    ensures !signal.Unfinished? ==>
      after == if signal.Returned? then before + [Exec(p, fuel, isRoot, block, f, s).value] else before
  {
    ExecTidy(b, p, fuel, isRoot, block, f, s);
  }
}
