/** Where vm.c leaves operands behind: its own check of the stack depth after every block is false for
    some scripts. */
module Depth {
  import opened Script
  import opened Evaluator
  import opened Executor
  import opened Control

  /** Arguments that leave their values and nothing else. */
  predicate Clean(m: Method, args: seq<Expr>, r: Results) {
    r.signal.NextStep? && |r.values| == if |args| < |m.params| then |m.params| else |args|
  }

  /** The check at the end of a block: one more operand when it returns, and none when it goes on,
      breaks or continues. A throw is not checked. */
  predicate CheckPasses(signal: Signal, before: nat, after: nat) {
    signal.Thrown? || after == if signal.Returned? then before + 1 else before
  }

  /** How many arguments a call has beyond the parameters. */
  function Excess(m: Method, args: seq<Expr>): nat {
    if |args| <= |m.params| then 0 else |args| - |m.params|
  }

  /** A call whose arguments and body leave nothing else behind leaves as many operands as it has surplus
      arguments: its owner, and all of them but one. So it nets one operand iff there are no more
      arguments than parameters. Methods are looked up with that test; nodes are not. */
  lemma SurplusIsLeft(p: Program, fuel: nat, x: string, args: seq<Expr>, f: nat, s: State)
    requires f < |s.frames| && Resolve(p, x, |args|, f, s).Callee?
    requires var c := Resolve(p, x, |args|, f, s);
      var given := EvalArguments(p, fuel, c.code, args, f, s);
      var pushed := given.Above([c.self]);
      && Clean(c.code, args, given)
      && EvalBody(p, fuel, c.code.body, true, |pushed.state.frames|,
                  Entered(c.code, pushed.values, c.owner, f, pushed.state)).left == []
    ensures |EvalCall(p, fuel, x, args, f, s).left| == Excess(Resolve(p, x, |args|, f, s).code, args)
    ensures EvalCall(p, fuel, x, args, f, s).left == [] <==> |args| <= |Resolve(p, x, |args|, f, s).code.params|
  {
    var c := Resolve(p, x, |args|, f, s);
    CallUnfolds(p, fuel, x, args, f, s, c, EvalArguments(p, fuel, c.code, args, f, s).Above([c.self]));
  }

  // ----- rows of calls -----

  predicate IsCall(c: Statement) {
    c.Do? && c.line.Plain? && c.line.expr.Call?
  }

  /** The statement can be run, and its arguments and the body it calls leave nothing else behind. */
  ghost predicate CleanCall(p: Program, fuel: nat, c: Statement, f: nat, s: State) {
    && f < |s.frames| && fuel >= 2 && IsCall(c) && Resolve(p, c.line.expr.name, |c.line.expr.args|, f, s).Callee?
    && var callee := Resolve(p, c.line.expr.name, |c.line.expr.args|, f, s);
       var given := EvalArguments(p, fuel - 2, callee.code, c.line.expr.args, f, s);
       var pushed := given.Above([callee.self]);
       && Clean(callee.code, c.line.expr.args, given)
       && EvalBody(p, fuel - 2, callee.code.body, true, |pushed.state.frames|,
                   Entered(callee.code, pushed.values, callee.owner, f, pushed.state)).left == []
  }

  ghost predicate CleanRow(p: Program, fuel: nat, row: seq<Statement>, f: nat, s: State)
    requires f < |s.frames|
    decreases |row|
  {
    row != [] ==>
      CleanCall(p, fuel, row[0], f, s) && CleanRow(p, fuel, row[1..], f, ExecOne(p, fuel, row[0], f, s).state)
  }

  /** Whether a call has no more arguments than what it refers to has parameters. */
  predicate Covered(p: Program, c: Statement, f: nat, s: State) {
    && f < |s.frames| && IsCall(c)
    && var callee := Resolve(p, c.line.expr.name, |c.line.expr.args|, f, s);
       callee.Callee? && |c.line.expr.args| <= |callee.code.params|
  }

  /** Every call is covered when it is come to. */
  ghost predicate CoveredRow(p: Program, fuel: nat, row: seq<Statement>, f: nat, s: State)
    requires f < |s.frames|
    decreases |row|
  {
    row != [] ==> Covered(p, row[0], f, s) && CoveredRow(p, fuel, row[1..], f, ExecOne(p, fuel, row[0], f, s).state)
  }

  lemma CallStatement(p: Program, fuel: nat, c: Statement, f: nat, s: State)
    requires f < |s.frames| && fuel >= 2 && IsCall(c)
    ensures ExecOne(p, fuel, c, f, s) == Keep(EvalCall(p, fuel - 2, c.line.expr.name, c.line.expr.args, f, s), f)
  {
    var k: nat := fuel - 1;
    assert Eval(p, k, c.line.expr, f, s) == EvalCall(p, k - 1, c.line.expr.name, c.line.expr.args, f, s);
    assert ExecLine(p, k, c.line, f, s) == Eval(p, k, c.line.expr, f, s);
  }

  lemma OneCall(p: Program, fuel: nat, c: Statement, f: nat, s: State)
    requires f < |s.frames| && CleanCall(p, fuel, c, f, s)
    ensures ExecOne(p, fuel, c, f, s).left == [] <==> Covered(p, c, f, s)
    ensures var e := c.line.expr;
      |ExecOne(p, fuel, c, f, s).left| == Excess(Resolve(p, e.name, |e.args|, f, s).code, e.args)
  {
    var k: nat := fuel - 2;
    CallStatement(p, fuel, c, f, s);
    SurplusIsLeft(p, k, c.line.expr.name, c.line.expr.args, f, s);
  }

  lemma {:induction false} RowLeaves(p: Program, fuel: nat, row: seq<Statement>, f: nat, s: State)
    requires f < |s.frames| && CleanRow(p, fuel, row, f, s) && ExecAll(p, fuel, row, f, s).signal.NextStep?
    ensures ExecAll(p, fuel, row, f, s).left == [] <==> CoveredRow(p, fuel, row, f, s)
    decreases |row|
  {
    if row != [] {
      OneCall(p, fuel, row[0], f, s);
      RowLeaves(p, fuel, row[1..], f, ExecOne(p, fuel, row[0], f, s).state);
    }
  }

  /** The check passes behind a row of calls with clean parts iff every call is covered. */
  lemma RowPassesIffCovered(p: Program, fuel: nat, row: seq<Statement>, f: nat, s: State,
                            before: seq<Value>, after: seq<Value>, signal: Signal, now: State)
    requires f < |s.frames| && fuel > 0 && CleanRow(p, fuel - 1, row, f, s) && signal.NextStep?
    requires BlockFits(before, after, signal, now, Exec(p, fuel, false, row, f, s))
    ensures CheckPasses(signal, |before|, |after|) <==> CoveredRow(p, fuel - 1, row, f, s)
  {
    RowLeaves(p, fuel - 1, row, f, s);
  }

  // ----- a condition on the text and the variables -----

  /** Code that has one number as its body, and numbers for all defaults. */
  predicate Still(v: Value) {
    v.Node? && v.code.body.Single? && v.code.body.expr.Const? && StillDefaults(v.code.params)
  }

  predicate StillDefaults(params: seq<Param>) {
    forall i :: 0 <= i < |params| ==> params[i].default != [] && params[i].default[0].Const?
  }

  predicate AllConst(es: seq<Expr>) {
    forall i :: 0 <= i < |es| ==> es[i].Const?
  }

  /** A call with numbers as arguments of a still code value in a local variable. */
  predicate StillCall(c: Statement, f: nat, s: State) {
    IsCall(c) && AllConst(c.line.expr.args) && Has(s, f, c.line.expr.name) && Still(Held(c, f, s))
  }

  function Held(c: Statement, f: nat, s: State): Value {
    if IsCall(c) && Has(s, f, c.line.expr.name) then s.frames[f].locals[0][c.line.expr.name] else Nothing
  }

  /** No more arguments than the code in the variable has parameters. */
  predicate Fewer(c: Statement, f: nat, s: State) {
    IsCall(c) && Held(c, f, s).Node? && |c.line.expr.args| <= |Held(c, f, s).code.params|
  }

  lemma {:induction false} ConstsRun(p: Program, fuel: nat, es: seq<Expr>, f: nat, s: State)
    requires f < |s.frames| && fuel > 0 && AllConst(es)
    ensures var r := EvalAll(p, fuel, es, f, s);
      r.signal.NextStep? && r.state == s && |r.values| == |es| && forall v | v in r.values :: v.Int?
  {
    if es != [] {
      assert Eval(p, fuel, es[0], f, s) == Done(Int(Made(es[0].n)), s);
      ConstsRun(p, fuel, es[1..], f, s);
    }
  }

  lemma {:induction false} DefaultsRun(p: Program, fuel: nat, params: seq<Param>, f: nat, s: State)
    requires f < |s.frames| && fuel > 0 && StillDefaults(params)
    ensures var r := EvalDefaults(p, fuel, params, f, s); r.signal.NextStep? && r.state == s && |r.values| == |params|
  {
    if params != [] {
      assert Eval(p, fuel, params[0].default[0], f, s) == Done(Int(Made(params[0].default[0].n)), s);
      DefaultsRun(p, fuel, params[1..], f, s);
    }
  }

  lemma StillArguments(p: Program, fuel: nat, m: Method, args: seq<Expr>, f: nat, s: State)
    requires f < |s.frames| && fuel > 0 && AllConst(args) && StillDefaults(m.params)
    ensures var r := EvalArguments(p, fuel, m, args, f, s); Clean(m, args, r) && r.state == s
  {
    ConstsRun(p, fuel, args, f, s);
    if |args| < |m.params| { DefaultsRun(p, fuel, m.params[|args|..], f, s); }
  }

  function Callees(v: Value): Callee
    requires v.Node?
  {
    Callee(v.code, v.self, [v.frame])
  }

  lemma StillCallEnds(p: Program, fuel: nat, c: Statement, f: nat, s: State, given: Results)
    requires f < |s.frames| && fuel > 0 && StillCall(c, f, s)
    requires given == EvalArguments(p, fuel, Held(c, f, s).code, c.line.expr.args, f, s)
    ensures var (e, v) := (c.line.expr, Held(c, f, s));
      var pushed := [v.self] + given.values;
      && Resolve(p, e.name, |e.args|, f, s) == Callees(v) && Clean(v.code, e.args, given) && given.state == s
      && EvalCall(p, fuel, e.name, e.args, f, s)
         == Result(NextStep, Int(Made(v.code.body.expr.n)), pushed[..Excess(v.code, e.args)],
                   Entered(v.code, pushed, [v.frame], f, s))
  {
    var (e, v) := (c.line.expr, Held(c, f, s));
    assert Resolve(p, e.name, |e.args|, f, s) == Callees(v);
    StillArguments(p, fuel, v.code, e.args, f, s);
    var pushed := given.Above([v.self]);
    CallUnfolds(p, fuel, e.name, e.args, f, s, Callees(v), pushed);
    StillBodyRuns(p, fuel, v, pushed.values, f, s);
    var below := pushed.values[..|pushed.values| - |v.code.params| - 1];
    assert below + [] == below;
  }

  /** A still call ends normally, is clean, and changes no local variable of the caller. */
  lemma StillCallRuns(p: Program, fuel: nat, c: Statement, f: nat, s: State)
    requires f < |s.frames| && fuel >= 3 && StillCall(c, f, s)
    ensures CleanCall(p, fuel, c, f, s) && ExecOne(p, fuel, c, f, s).signal.NextStep?
    ensures var s1 := ExecOne(p, fuel, c, f, s).state; s1.frames[f].locals == s.frames[f].locals
    ensures Covered(p, c, f, s) <==> Fewer(c, f, s)
  {
    var k: nat := fuel - 2;
    var v := Held(c, f, s);
    var given := EvalArguments(p, k, v.code, c.line.expr.args, f, s);
    StillCallEnds(p, k, c, f, s, given);
    StillBodyRuns(p, k, v, [v.self] + given.values, f, s);
    CallStatement(p, fuel, c, f, s);
  }

  lemma StillBodyRuns(p: Program, fuel: nat, v: Value, pushed: seq<Value>, f: nat, s: State)
    requires f < |s.frames| && fuel > 0 && Still(v) && |pushed| > |v.code.params|
    ensures var s1 := Entered(v.code, pushed, [v.frame], f, s);
      && EvalBody(p, fuel, v.code.body, true, |s.frames|, s1) == Done(Int(Made(v.code.body.expr.n)), s1)
      && s1.frames[f] == s.frames[f]
  {
  }

  lemma {:induction false} StillRowRuns(p: Program, fuel: nat, row: seq<Statement>, f: nat, s: State)
    requires f < |s.frames| && fuel >= 3 && forall i :: 0 <= i < |row| ==> StillCall(row[i], f, s)
    ensures CleanRow(p, fuel, row, f, s) && ExecAll(p, fuel, row, f, s).signal.NextStep?
    ensures CoveredRow(p, fuel, row, f, s) <==>
      forall i :: 0 <= i < |row| ==> Fewer(row[i], f, s)
    decreases |row|
  {
    if row != [] {
      StillCallRuns(p, fuel, row[0], f, s);
      var s1 := ExecOne(p, fuel, row[0], f, s).state;
      forall i | 0 <= i < |row[1..]|
        ensures StillCall(row[1..][i], f, s1) && Held(row[1..][i], f, s1) == Held(row[i + 1], f, s)
      {
        assert StillCall(row[i + 1], f, s);
      }
      StillRowRuns(p, fuel, row[1..], f, s1);
    }
  }

  /** Behind a row of still calls the check passes iff no call has more arguments than the code in its
      variable has parameters. */
  lemma StillRowPasses(p: Program, fuel: nat, row: seq<Statement>, f: nat, s: State,
                       before: seq<Value>, after: seq<Value>, signal: Signal, now: State)
    requires f < |s.frames| && fuel >= 4 && forall i :: 0 <= i < |row| ==> StillCall(row[i], f, s)
    requires BlockFits(before, after, signal, now, Exec(p, fuel, false, row, f, s))
    ensures CheckPasses(signal, |before|, |after|) <==>
      forall i :: 0 <= i < |row| ==> Fewer(row[i], f, s)
  {
    StillRowRuns(p, fuel - 1, row, f, s);
    RowPassesIffCovered(p, fuel, row, f, s, before, after, signal, now);
  }

  /** An assignment of such a call throws when there are more arguments than parameters: what is left
      behind is no reference to assign to. */
  lemma SurplusAssignmentThrows(p: Program, fuel: nat, outer: bool, x: string, c: Statement, f: nat, s: State)
    requires f < |s.frames| && fuel >= 2 && StillCall(c, f, Locate(s, f, outer, x).1)
    requires var s1 := Locate(s, f, outer, x).1; !Fewer(c, f, s1) && !Held(c, f, s1).self.Ref?
    ensures EvalAssign(p, fuel, outer, x, c.line.expr, f, s).signal == Thrown
  {
    var s1 := Locate(s, f, outer, x).1;
    CallLeavesNoReference(p, fuel - 1, c, f, s1);
    assert Eval(p, fuel, c.line.expr, f, s1) == EvalCall(p, fuel - 1, c.line.expr.name, c.line.expr.args, f, s1);
    AssignmentThrows(p, fuel, outer, x, c.line.expr, f, s);
  }

  lemma LastLeft(self: Value, values: seq<Value>, n: nat)
    requires 0 < n <= |values| + 1 && !self.Ref? && forall v | v in values :: v.Int?
    ensures !([self] + values)[..n][n - 1].Ref?
  {
    if n > 1 {
      assert ([self] + values)[n - 1] == values[n - 2] && values[n - 2] in values;
    }
  }

  lemma CallLeavesNoReference(p: Program, fuel: nat, c: Statement, f: nat, s: State)
    requires f < |s.frames| && fuel >= 1 && StillCall(c, f, s) && !Fewer(c, f, s) && !Held(c, f, s).self.Ref?
    ensures var r := EvalCall(p, fuel, c.line.expr.name, c.line.expr.args, f, s);
      r.signal.NextStep? && r.left != [] && !r.left[|r.left| - 1].Ref?
  {
    var (args, v) := (c.line.expr.args, Held(c, f, s));
    var given := EvalArguments(p, fuel, v.code, args, f, s);
    StillCallEnds(p, fuel, c, f, s, given);
    ConstsRun(p, fuel, args, f, s);
    assert given == EvalAll(p, fuel, args, f, s);
    LastLeft(v.self, given.values, Excess(v.code, args));
  }

  // ----- a script -----

  /** "g = { 0 }" and then "g(7)". */
  function Surplus(): seq<Statement> {
    [Do(Plain(Assign(false, "g", Lambda(Method([], Single(Const(0))))))), Do(Plain(Call("g", [Const(7)])))]
  }

  /** The state behind the assignment. */
  function Behind(f: nat, s: State): State
    requires f < |s.frames|
  {
    var node := Node(Method([], Single(Const(0))), f, s.frames[f].this_);
    var s1 := Locate(s, f, false, "g").1;
    Keep(Done(Ref(Local(f), "g"), Write(s1, Local(f), "g", node)), f).state
  }

  lemma AssignmentRuns(p: Program, fuel: nat, f: nat, s: State)
    requires f < |s.frames| && fuel >= 4 && Find(s, f, "g", true) == []
    ensures ExecOne(p, fuel, Surplus()[0], f, s) == Result(NextStep, Ref(Local(f), "g"), [], Behind(f, s))
  {
    var code := Method([], Single(Const(0)));
    var (place, s1) := Locate(s, f, false, "g");
    var node := Node(code, f, s1.frames[f].this_);
    assert Eval(p, fuel - 2, Lambda(code), f, s1) == Done(node, s1);
    assert [Ref(place, "g")] + [node] == [Ref(place, "g"), node];
    assert EvalAssign(p, fuel - 2, false, "g", Lambda(code), f, s)
      == Done(Ref(place, "g"), Write(s1, place, "g", node));
    assert ExecLine(p, fuel - 1, Surplus()[0].line, f, s) == Done(Ref(place, "g"), Write(s1, place, "g", node));
  }

  lemma SecondRuns(p: Program, fuel: nat, f: nat, s: State)
    requires f < |s.frames| && fuel >= 4 && Find(s, f, "g", true) == []
    ensures var r := ExecOne(p, fuel, Surplus()[1], f, Behind(f, s)); r.signal == NextStep && |r.left| == 1
  {
    StillCallRuns(p, fuel, Surplus()[1], f, Behind(f, s));
    OneCall(p, fuel, Surplus()[1], f, Behind(f, s));
  }

  lemma BlockRuns(p: Program, fuel: nat, f: nat, s: State)
    requires f < |s.frames| && fuel >= 4 && Find(s, f, "g", true) == []
    ensures ExecAll(p, fuel, Surplus(), f, s).signal == NextStep && |ExecAll(p, fuel, Surplus(), f, s).left| == 1
  {
    AssignmentRuns(p, fuel, f, s);
    SecondRuns(p, fuel, f, s);
    var call := Surplus()[1..];
    assert call == [Surplus()[1]] && call[1..] == [];
    assert |ExecAll(p, fuel, call, f, Behind(f, s)).left| == 1;
  }

  /** The block ends normally with one operand more on the stack than before, and fails the check. */
  lemma DeeperStack(p: Program, fuel: nat, f: nat, s: State, before: seq<Value>, after: seq<Value>, signal: Signal,
                    now: State)
    requires f < |s.frames| && fuel >= 5 && Find(s, f, "g", true) == []
    requires BlockFits(before, after, signal, now, Exec(p, fuel, false, Surplus(), f, s))
    ensures signal == NextStep && |after| == |before| + 1 && !CheckPasses(signal, |before|, |after|)
  {
    BlockRuns(p, fuel - 1, f, s);
  }
}
