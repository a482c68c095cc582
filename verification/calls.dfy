/** What names stand for, which value goes where in a call, and what a call runs. The laws are about Direct;
    Agreement has them for the executor on tidy scripts. */
module Calls {
  import opened Script
  import E = Evaluator
  import D = Direct
  import Flow
  import T = Tidy
  import A = Agreement
  import X = Executor

  // ----- constants and names -----

  lemma ConstantsAndCode(p: Program, fuel: nat, n: int, code: Method, f: nat, s: State)
    requires f < |s.frames| && fuel > 0
    ensures -0x8000_0000 < n < 0x8000_0000 ==> D.Eval(p, fuel, Const(n), f, s) == D.Done(Int(n), s)
    ensures D.Eval(p, fuel, Lambda(code), f, s) == D.Done(Node(code, f, s.frames[f].this_), s)
  {
  }

  /** The local variables of frame f. */
  function Locals(s: State, f: nat): map<string, Value> {
    if f < |s.frames| && s.frames[f].locals != [] then s.frames[f].locals[0] else map[]
  }

  /** The local variables of the frame that the code of frame f was written in. */
  function OwnersLocals(s: State, f: nat): map<string, Value> {
    if f < |s.frames| && s.frames[f].owner != [] then Locals(s, s.frames[f].owner[0]) else map[]
  }

  function WithLocal(s: State, f: nat, x: string, v: Value): State
    requires f < |s.frames|
  {
    s.(frames := s.frames[f := s.frames[f].(locals := [Locals(s, f)[x := v]])])
  }

  /** A name is a local variable, or one of the owner, or a global one, in this order; else it is created
      as a local variable with value 0. */
  lemma NameIsLocated(f: nat, x: string, s: State)
    requires f < |s.frames|
    ensures E.Locate(s, f, false, x) ==
      if x in Locals(s, f) then (Local(f), s)
      else if x in OwnersLocals(s, f) then (Local(s.frames[f].owner[0]), s)
      else if x in s.globals then (Global, s)
      else (Local(f), WithLocal(s, f, x, Int(0)))
  {
  }

  /** Behind "owner." the search starts at the owner, passes the globals by, and creates there. */
  lemma OwnersNameIsLocated(f: nat, x: string, s: State)
    requires f < |s.frames| && s.frames[f].owner != [] && s.frames[f].owner[0] < |s.frames|
    ensures var o := s.frames[f].owner[0];
      E.Locate(s, f, true, x) ==
        if x in Locals(s, o) then (Local(o), s)
        else if x in OwnersLocals(s, o) then (Local(s.frames[o].owner[0]), s)
        else (Local(o), WithLocal(s, o, x, Int(0)))
  {
  }

  lemma NameIsLookedUp(p: Program, fuel: nat, x: string, f: nat, s: State)
    requires f < |s.frames| && fuel > 0
    ensures D.Eval(p, fuel, Name(false, x), f, s) ==
      if x in Locals(s, f) then D.Done(Locals(s, f)[x], s)
      else if x in OwnersLocals(s, f) then D.Done(OwnersLocals(s, f)[x], s)
      else if x in s.globals then D.Done(s.globals[x], s)
      else D.Done(Int(0), WithLocal(s, f, x, Int(0)))
  {
  }

  lemma OwnersNameIsLookedUp(p: Program, fuel: nat, x: string, f: nat, s: State)
    requires f < |s.frames| && fuel > 0 && s.frames[f].owner != [] && s.frames[f].owner[0] < |s.frames|
    ensures var o := s.frames[f].owner[0];
      D.Eval(p, fuel, Name(true, x), f, s) ==
        if x in Locals(s, o) then D.Done(Locals(s, o)[x], s)
        else if x in OwnersLocals(s, o) then D.Done(OwnersLocals(s, o)[x], s)
        else D.Done(Int(0), WithLocal(s, o, x, Int(0)))
  {
  }

  /** Assigning a local variable evaluates the right-hand side and then writes the value there. */
  lemma LocalIsAssigned(p: Program, fuel: nat, x: string, right: Expr, f: nat, s: State)
    requires f < |s.frames| && fuel > 0 && x in Locals(s, f)
    ensures var r := D.Eval(p, fuel - 1, right, f, s);
      D.Eval(p, fuel, Assign(false, x, right), f, s) ==
        if r.signal.NextStep? then D.Done(Ref(Local(f), x), WithLocal(r.state, f, x, r.value)) else r
  {
    assert E.Locate(s, f, false, x) == (Local(f), s);
  }

  /** The operands of an operator are evaluated from left to right, the right one in the state that the left
      one has left, and the operator gets them in that order. */
  lemma OperandsInOrder(p: Program, fuel: nat, op: Op, left: Expr, right: Expr, f: nat, s: State, s1: State, s2: State,
                        v: Value, w: Value)
    requires f < |s.frames| && f < |s1.frames|
    requires D.Eval(p, fuel, left, f, s) == D.Done(v, s1) && D.Eval(p, fuel, right, f, s1) == D.Done(w, s2)
    ensures D.Eval(p, fuel + 1, Operate(op, left, right), f, s) ==
      if Apply(op, v, w) == [] then D.Ended(E.Thrown, s2) else D.Done(Apply(op, v, w)[0], s2)
  {
  }

  // ----- calls -----

  /** The expression behind parameter i: its argument, or its default when there is none. */
  function Given(params: seq<Param>, args: seq<Expr>, i: nat): seq<Expr>
    requires i < |params|
  {
    if i < |args| then [args[i]] else params[i].default
  }

  /** What comes of evaluating it in state s, when there is such an expression. */
  ghost function Valued(p: Program, fuel: nat, params: seq<Param>, args: seq<Expr>, i: nat, f: nat,
                        s: State): seq<D.Outcome>
    requires i < |params|
  {
    if f < |s.frames| && Given(params, args, i) != [] then [D.Eval(p, fuel, Given(params, args, i)[0], f, s)] else []
  }

  /** The parameters from i on get their values one after another, each in the state that the one before
      has left. */
  ghost predicate InOrder(p: Program, fuel: nat, params: seq<Param>, args: seq<Expr>, i: nat, f: nat,
                          states: seq<State>, values: seq<Value>) {
    && i <= |params| && |values| == |params| - i && |states| == |values| + 1
    && forall j {:trigger values[j]} :: 0 <= j < |values| ==>
         Valued(p, fuel, params, args, i + j, f, states[j]) == [D.Done(values[j], states[j + 1])]
  }

  lemma FirstInOrder(p: Program, fuel: nat, params: seq<Param>, args: seq<Expr>, i: nat, f: nat, s: State,
                     states: seq<State>, v: Value, values: seq<Value>)
    requires InOrder(p, fuel, params, args, i + 1, f, states, values) && i < |params|
    requires Valued(p, fuel, params, args, i, f, s) == [D.Done(v, states[0])]
    ensures InOrder(p, fuel, params, args, i, f, [s] + states, [v] + values)
  {
    var all, vs := [s] + states, [v] + values;
    forall j {:trigger vs[j]} | 0 <= j < |vs|
      ensures Valued(p, fuel, params, args, i + j, f, all[j]) == [D.Done(vs[j], all[j + 1])]
    {
      if j > 0 {
        assert vs[j] == values[j - 1] && all[j] == states[j - 1] && all[j + 1] == states[j];
        assert i + 1 + (j - 1) == i + j;
      }
    }
  }

  lemma {:induction false} DefaultsInOrder(p: Program, fuel: nat, params: seq<Param>, args: seq<Expr>, i: nat, f: nat,
                                           s: State)
    returns (states: seq<State>)
    requires f < |s.frames| && |args| <= i <= |params|
    requires D.EvalDefaults(p, fuel, params[i..], f, s).signal.NextStep?
    ensures var r := D.EvalDefaults(p, fuel, params[i..], f, s);
      InOrder(p, fuel, params, args, i, f, states, r.values) && states[0] == s && states[|states| - 1] == r.state
    decreases |params| - i
  {
    if i == |params| {
      states := [s];
    } else {
      var rest := params[i..];
      assert rest[0] == params[i] && rest[1..] == params[i + 1..];
      var r := D.Eval(p, fuel, params[i].default[0], f, s);
      var after := DefaultsInOrder(p, fuel, params, args, i + 1, f, r.state);
      var values := D.EvalDefaults(p, fuel, params[i + 1..], f, r.state).values;
      FirstInOrder(p, fuel, params, args, i, f, s, after, r.value, values);
      states := [s] + after;
    }
  }

  lemma FirstArgument(p: Program, fuel: nat, params: seq<Param>, args: seq<Expr>, i: nat, f: nat, s: State,
                      given: D.Outcomes)
    returns (r: D.Outcome, more: D.Outcomes)
    requires f < |s.frames| && i < |args| <= |params|
    requires given == D.EvalAll(p, fuel, args[i..], f, s) && given.signal.NextStep?
    ensures Valued(p, fuel, params, args, i, f, s) == [D.Done(r.value, r.state)] && f < |r.state.frames|
    ensures more == D.EvalAll(p, fuel, args[i + 1..], f, r.state) && more.signal.NextStep? && more.state == given.state
    ensures given.values == [r.value] + more.values
  {
    assert args[i..][0] == args[i] && args[i..][1..] == args[i + 1..];
    r := D.Eval(p, fuel, args[i], f, s);
    more := D.EvalAll(p, fuel, args[i + 1..], f, r.state);
  }

  lemma FirstArgumentInOrder(p: Program, fuel: nat, params: seq<Param>, args: seq<Expr>, i: nat, f: nat, s: State,
                             states: seq<State>, v: Value, more: seq<Value>, rest: seq<Value>)
    requires InOrder(p, fuel, params, args, i + 1, f, states, more + rest) && i < |params|
    requires Valued(p, fuel, params, args, i, f, s) == [D.Done(v, states[0])]
    ensures InOrder(p, fuel, params, args, i, f, [s] + states, [v] + more + rest)
  {
    FirstInOrder(p, fuel, params, args, i, f, s, states, v, more + rest);
    assert [v] + more + rest == [v] + (more + rest);
  }

  lemma {:induction false} ArgumentsInOrder(p: Program, fuel: nat, params: seq<Param>, args: seq<Expr>, i: nat, f: nat,
                                            s: State, given: D.Outcomes, rest: D.Outcomes)
    returns (states: seq<State>)
    requires f < |s.frames| && i <= |args| <= |params|
    requires given == D.EvalAll(p, fuel, args[i..], f, s) && given.signal.NextStep?
    requires rest == D.EvalDefaults(p, fuel, params[|args|..], f, given.state) && rest.signal.NextStep?
    ensures InOrder(p, fuel, params, args, i, f, states, given.values + rest.values)
    ensures states[0] == s && states[|states| - 1] == rest.state
    decreases |args| - i
  {
    if i == |args| {
      assert [] + rest.values == rest.values;
      states := DefaultsInOrder(p, fuel, params, args, i, f, s);
    } else {
      var r, more := FirstArgument(p, fuel, params, args, i, f, s, given);
      var after := ArgumentsInOrder(p, fuel, params, args, i + 1, f, r.state, more, rest);
      FirstArgumentInOrder(p, fuel, params, args, i, f, s, after, r.value, more.values, rest.values);
      states := [s] + after;
    }
  }

  /** When the arguments of a call end normally, parameter i has the value of argument i, or of its own
      default when there is no argument i, in the state that the one before has left. */
  lemma ParametersInOrder(p: Program, fuel: nat, m: Method, args: seq<Expr>, f: nat, s: State)
    returns (states: seq<State>)
    requires f < |s.frames| && |args| <= |m.params|
    requires D.EvalArguments(p, fuel, m, args, f, s).signal.NextStep?
    ensures var r := D.EvalArguments(p, fuel, m, args, f, s);
      && InOrder(p, fuel, m.params, args, 0, f, states, r.values)
      && states[0] == s && states[|states| - 1] == r.state
  {
    var given := D.EvalAll(p, fuel, args, f, s);
    assert args[0..] == args;
    var rest := D.EvalDefaults(p, fuel, m.params[|args|..], f, given.state);
    if |args| == |m.params| {
      assert m.params[|args|..] == [] && given.values + [] == given.values;
      assert rest == D.Outcomes(E.NextStep, [], given.state);
    }
    states := ArgumentsInOrder(p, fuel, m.params, args, 0, f, s, given, rest);
  }

  /** So the values that the executor pushes for a call in a tidy script are those. */
  lemma PushedInOrder(b: T.Bounds, p: Program, fuel: nat, m: Method, args: seq<Expr>, f: nat, s: State)
    returns (states: seq<State>)
    requires f < |s.frames| && T.TidyProgram(b, p) && T.TidyState(b, s) && T.TidyMethod(b, m) && |args| <= |m.params|
    requires forall a | a in args :: T.TidyExpr(b, a) && T.Carries(b, b.rest, a)
    requires E.EvalArguments(p, fuel, m, args, f, s).signal.NextStep?
    ensures var r := E.EvalArguments(p, fuel, m, args, f, s);
      && InOrder(p, fuel, m.params, args, 0, f, states, r.values)
      && states[0] == s && states[|states| - 1] == r.state
  {
    A.ArgumentsAgree(b, p, fuel, m, args, f, s);
    states := ParametersInOrder(p, fuel, m, args, f, s);
  }

  /** A missing default stops the evaluation of those behind it: it throws there, when nothing before it
      has. */
  lemma {:induction false} DefaultsStop(p: Program, fuel: nat, params: seq<Param>, f: nat, s: State)
    returns (k: nat, at: State)
    requires f < |s.frames| && !D.EvalDefaults(p, fuel, params, f, s).signal.NextStep?
    ensures k < |params| && f < |at.frames| && forall j :: 0 <= j < k ==> params[j].default != []
    ensures var r := D.EvalDefaults(p, fuel, params, f, s);
      if params[k].default == [] then r.signal == E.Thrown && r.state == at
      else
        var d := D.Eval(p, fuel, params[k].default[0], f, at);
        !d.signal.NextStep? && r.signal == d.signal && r.state == d.state
  {
    k, at := 0, s;
    if params[0].default != [] {
      var r := D.Eval(p, fuel, params[0].default[0], f, s);
      if r.signal.NextStep? {
        k, at := DefaultsStop(p, fuel, params[1..], f, r.state);
        k := k + 1;
      }
    }
  }

  predicate IsMissing(params: seq<Param>, i: nat)
    requires i < |params|
  {
    params[i].default == []
  }

  /** The defaults there are end normally wherever they are evaluated. */
  ghost predicate DefaultsEnd(p: Program, fuel: nat, params: seq<Param>, f: nat) {
    forall i, at: State {:trigger Evaluated(p, fuel, params, i, f, at)} ::
      0 <= i < |params| && !IsMissing(params, i) && f < |at.frames| ==>
        Evaluated(p, fuel, params, i, f, at).signal.NextStep?
  }

  function Evaluated(p: Program, fuel: nat, params: seq<Param>, i: nat, f: nat, s: State): D.Outcome
    requires i < |params| && !IsMissing(params, i) && f < |s.frames|
  {
    D.Eval(p, fuel, params[i].default[0], f, s)
  }

  /** A parameter from i on has no default. */
  predicate Lacking(params: seq<Param>, i: nat) {
    exists j :: i <= j < |params| && IsMissing(params, j)
  }

  lemma LackingBehind(params: seq<Param>, i: nat, n: nat)
    requires n <= |params| && i + n <= |params|
    ensures Lacking(params[n..], i) == Lacking(params, i + n)
  {
    var rest := params[n..];
    if j :| i <= j < |rest| && IsMissing(rest, j) {
      assert IsMissing(params, j + n);
    }
    if j :| i + n <= j < |params| && IsMissing(params, j) {
      assert IsMissing(rest, j - n);
    }
  }

  /** Then they are followed by a throw exactly when one is missing. */
  lemma {:induction false} MissingDefaultThrows(p: Program, fuel: nat, params: seq<Param>, f: nat, s: State)
    requires f < |s.frames| && DefaultsEnd(p, fuel, params, f)
    ensures D.EvalDefaults(p, fuel, params, f, s).signal == if Lacking(params, 0) then E.Thrown else E.NextStep
  {
    if params != [] && !IsMissing(params, 0) {
      var r, rest := Evaluated(p, fuel, params, 0, f, s), params[1..];
      DefaultsEndBehind(p, fuel, params, f);
      MissingDefaultThrows(p, fuel, rest, f, r.state);
      LackingBehind(params, 0, 1);
      assert Lacking(params, 0) == Lacking(params, 1);
    } else if params != [] {
      assert IsMissing(params, 0);
    }
  }

  lemma DefaultsEndBehind(p: Program, fuel: nat, params: seq<Param>, f: nat)
    requires params != [] && DefaultsEnd(p, fuel, params, f)
    ensures DefaultsEnd(p, fuel, params[1..], f)
  {
    var rest := params[1..];
    forall i, at: State | 0 <= i < |rest| && !IsMissing(rest, i) && f < |at.frames|
      ensures Evaluated(p, fuel, rest, i, f, at).signal.NextStep?
    {
      assert rest[i] == params[i + 1];
      assert Evaluated(p, fuel, params, i + 1, f, at).signal.NextStep?;
    }
  }

  /** So a call whose arguments end normally throws for want of a default exactly when a parameter without
      an argument has none. */
  lemma MissingArgumentThrows(p: Program, fuel: nat, m: Method, args: seq<Expr>, f: nat, s: State)
    requires f < |s.frames| && |args| <= |m.params| && D.EvalAll(p, fuel, args, f, s).signal.NextStep?
    requires DefaultsEnd(p, fuel, m.params[|args|..], f)
    ensures D.EvalArguments(p, fuel, m, args, f, s).signal ==
      if Lacking(m.params, |args|) then E.Thrown else E.NextStep
  {
    var n, s1 := |args|, D.EvalAll(p, fuel, args, f, s).state;
    MissingDefaultThrows(p, fuel, m.params[n..], f, s1);
    LackingBehind(m.params, 0, n);
  }

  /** What a call by name refers to: a local variable or one of the owner hides a method, whatever it
      holds; globals do not. */
  lemma CalleeIsFound(p: Program, x: string, n: nat, f: nat, s: State)
    requires f < |s.frames|
    ensures var v := if x in Locals(s, f) then [Locals(s, f)[x]]
                     else if x in OwnersLocals(s, f) then [OwnersLocals(s, f)[x]] else [];
      E.Resolve(p, x, n, f, s) ==
        if v != [] then if v[0].Node? then E.Callee(v[0].code, v[0].self, [v[0].frame]) else E.NoCallee
        else if s.frames[f].this_ != SELF then E.UnknownCallee
        else if x in p && n <= |p[x].params| then E.Callee(p[x], SELF, [])
        else E.NoCallee
  {
  }

  /** A call runs its code in a frame of its own: "this" and the owner are those of the callee, the frame
      before is the caller's, and the locals are the parameters. */
  lemma CallHasItsFrame(m: Method, values: seq<Value>, self: Value, owner: seq<nat>, f: nat, s: State, i: nat)
    requires |values| == |m.params| && f < |s.frames| && i < |m.params|
    requires forall j :: 0 <= j < i ==> m.params[j].name != m.params[i].name
    ensures var s1 := D.Entered(m, values, self, owner, f, s); var n := |s.frames|;
      && s1.frames[..n] == s.frames && |s1.frames| == n + 1 && s1.globals == s.globals && s1.exception == s.exception
      && s1.frames[n].this_ == self && s1.frames[n].owner == owner && s1.frames[n].previous == f
      && m.params[i].name in Locals(s1, n) && Locals(s1, n)[m.params[i].name] == values[i]
      && Locals(s1, n).Keys == set q | q in m.params :: q.name
  {
    assert values[..|m.params|] == values;
    D.BoundByPosition(m.params, values, i);
    BoundNames(m.params, values);
  }

  /** A call whose arguments end normally runs the body of its callee in that frame, and has the value that
      the body returns. */
  lemma CallRuns(p: Program, fuel: nat, x: string, args: seq<Expr>, f: nat, s: State, c: E.Callee)
    requires f < |s.frames| && E.Resolve(p, x, |args|, f, s) == c && c.Callee? && |args| <= |c.code.params|
    requires D.EvalArguments(p, fuel, c.code, args, f, s).signal.NextStep?
    ensures var given := D.EvalArguments(p, fuel, c.code, args, f, s);
      var s1, n := D.Entered(c.code, given.values, c.self, c.owner, f, given.state), |given.state.frames|;
      var r := D.EvalCall(p, fuel, x, args, f, s);
      if c.code.body.Single? then r == D.Eval(p, fuel, c.code.body.expr, n, s1)
      else
        var b := D.Exec(p, fuel, true, c.code.body.block, n, s1);
        if b.signal.Returned? then r == D.Done(b.value, b.state) else r == b
  {
    var given := D.EvalArguments(p, fuel, c.code, args, f, s);
    assert D.EvalCall(p, fuel, x, args, f, s) ==
      D.Invoke(p, fuel, c.code, true, given.values, c.self, c.owner, f, given.state);
  }

  /** A call that finds nothing to call throws a new error, and so does one without an argument or a default
      for a parameter; what its arguments throw goes through. */
  lemma CallFails(p: Program, fuel: nat, x: string, args: seq<Expr>, f: nat, s: State, c: E.Callee)
    requires f < |s.frames| && E.Resolve(p, x, |args|, f, s) == c
    requires c.Callee? ==> !D.EvalArguments(p, fuel, c.code, args, f, s).signal.NextStep?
    ensures var r := D.EvalCall(p, fuel, x, args, f, s);
      match c
      case NoCallee => r.signal.Thrown? && Flow.NewError(s, r.state)
      case UnknownCallee => r.signal.Undefined? && r.state == s
      case Callee(code, _, _) =>
        var given := D.EvalArguments(p, fuel, code, args, f, s);
        && r.signal == given.signal
        && if r.signal.Thrown? && given.state.exception == [] then Flow.NewError(given.state, r.state)
           else r.state == given.state
  {
  }

  lemma {:induction false} BoundNames(params: seq<Param>, values: seq<Value>)
    requires |params| == |values|
    ensures Bind(params, values).Keys == set q | q in params :: q.name
  {
    if params != [] {
      BoundNames(params[1..], values[1..]);
      assert params == [params[0]] + params[1..];
    }
  }

  // ----- a call with a missing argument, worked out -----

  /** A code value with the parameters x = m and y = n, worth x - y. */
  function Difference(m: int, n: int): Method {
    Method([Param("x", [Const(m)]), Param("y", [Const(n)])], Single(Operate(Minus, Name(false, "x"), Name(false, "y"))))
  }

  /** The state in which the variable g holds it, and nothing else is there. */
  function Holding(code: Method): State {
    State([Frame([map["g" := Node(code, 0, SELF)]], SELF, [], 0, Stale)], map[], [], 1)
  }

  /** The script is tidy, and g(a) is worth a - n in the executor: a is x, and y has its own default. */
  lemma MissingArgument(m: int, n: int, a: int, fuel: nat, before: seq<Value>, after: seq<Value>, signal: E.Signal,
                        now: State)
    requires -LIMIT < n < LIMIT && -LIMIT < a < LIMIT && -LIMIT < a - n < LIMIT && fuel >= 4
    requires X.ExprFits(before, after, signal, now,
                        E.Eval(map[], fuel, Call("g", [Const(a)]), 0, Holding(Difference(m, n))))
    ensures signal == E.NextStep && after == before + [Int(a - n)]
  {
    var s, b, call := Holding(Difference(m, n)), T.Bounds(map["g" := 2], 0), Call("g", [Const(a)]);
    HoldingIsTidy(m, n, a);
    A.ExpressionsRunDirectly(b, map[], fuel, call, 0, s, before, after, signal, now);
    var less: nat := fuel - 1;
    MissingArgumentDirectly(m, n, a, less);
  }

  lemma HoldingIsTidy(m: int, n: int, a: int)
    ensures var b := T.Bounds(map["g" := 2], 0);
      T.TidyState(b, Holding(Difference(m, n))) && T.TidyExpr(b, Call("g", [Const(a)])) && T.TidyProgram(b, map[])
  {
    var b, code := T.Bounds(map["g" := 2], 0), Difference(m, n);
    forall q | q in code.params ensures T.TidyParam(b, q) {
      assert T.TidyExpr(b, Const(m)) && T.TidyExpr(b, Const(n));
    }
    assert T.TidyExpr(b, code.body.expr.left) && T.TidyExpr(b, code.body.expr.right);
    assert T.TidyExpr(b, code.body.expr) && T.Carries(b, 0, code.body.expr);
    assert T.TidyMethod(b, code);
    assert T.TidyFrame(b, Holding(code).frames[0]);
    assert T.TidyExpr(b, Const(a));
  }

  lemma MissingArgumentDirectly(m: int, n: int, a: int, fuel: nat)
    requires -LIMIT < n < LIMIT && -LIMIT < a < LIMIT && -LIMIT < a - n < LIMIT && fuel >= 3
    ensures var r := D.EvalCall(map[], fuel, "g", [Const(a)], 0, Holding(Difference(m, n)));
      r.signal.NextStep? && r.value == Int(a - n)
  {
    var s, code, args := Holding(Difference(m, n)), Difference(m, n), [Const(a)];
    CalleeIsFound(map[], "g", 1, 0, s);
    BothValues(code, args, m, n, a, fuel, s);
    CallRuns(map[], fuel, "g", args, 0, s, E.Callee(code, SELF, [0]));
    var s1 := D.Entered(code, [Int(a), Int(n)], SELF, [0], 0, s);
    CallHasItsFrame(code, [Int(a), Int(n)], SELF, [0], 0, s, 0);
    CallHasItsFrame(code, [Int(a), Int(n)], SELF, [0], 0, s, 1);
    var less: nat := fuel - 1;
    NameIsLookedUp(map[], less, "x", 1, s1);
    NameIsLookedUp(map[], less, "y", 1, s1);
    OperandsInOrder(map[], less, Minus, Name(false, "x"), Name(false, "y"), 1, s1, s1, s1, Int(a), Int(n));
  }

  lemma BothValues(code: Method, args: seq<Expr>, m: int, n: int, a: int, fuel: nat, s: State)
    requires code == Difference(m, n) && args == [Const(a)] && s == Holding(code)
    requires -LIMIT < n < LIMIT && -LIMIT < a < LIMIT && fuel >= 3
    ensures D.EvalArguments(map[], fuel, code, args, 0, s) == D.Outcomes(E.NextStep, [Int(a), Int(n)], s)
  {
    ConstantsAndCode(map[], fuel, a, code, 0, s);
    ConstantsAndCode(map[], fuel, n, code, 0, s);
    var rest := code.params[1..];
    assert rest == [Param("y", [Const(n)])] && rest[1..] == [] && args[1..] == [];
    assert D.EvalAll(map[], fuel, args, 0, s) == D.Outcomes(E.NextStep, [Int(a)], s);
    assert D.EvalDefaults(map[], fuel, rest, 0, s) == D.Outcomes(E.NextStep, [Int(n)], s);
    assert [Int(a)] + [Int(n)] == [Int(a), Int(n)];
  }
}
