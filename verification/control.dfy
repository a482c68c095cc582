/** Laws of the language: what its control structures do on every script. */
module Control {
  import opened Script
  import opened Evaluator
  import opened Executor

  predicate IsLogical(op: Op) {
    op.And? || op.Or? || op.Equal? || op.NotEqual?
  }

  // ----- two runs side by side -----

  /** Two executors in the same state, with the same operands on stacks of their own. */
  ghost predicate Alike(a: Vm, b: Vm)
    requires a.Valid() && b.Valid()
    reads a, a.stack, a.stack.cells, b, b.stack, b.stack.cells
  {
    a.program == b.program && a.Now() == b.Now() && a.current == b.current && a.stack.Contents() == b.stack.Contents()
  }

  ghost predicate Apart(a: Vm, b: Vm)
    reads a, a.stack, b, b.stack
  {
    a != b && a.stack != b.stack && a.stack.cells != b.stack.cells
  }

  /** Running left and then right, as long as they end normally. */
  method LeftThenRight(v: Vm, fuel: nat, ghost op: Op, left: Expr, right: Expr) returns (parts: Signal)
    requires v.Valid() && IsLogical(op)
    modifies v, v.stack, v.stack.cells
    ensures v.Valid() && v.current == old(v.current)
    ensures var r := EvalOperate(v.program, fuel, op, left, right, v.current, old(v.Now()));
      parts == r.signal && v.Now() == r.state
      && (!parts.NextStep? ==> v.stack.Contents() == old(v.stack.Contents()) + r.Operands())
  {
    ghost var base, s, l := v.stack.Contents(), v.Now(), Eval(v.program, fuel, left, v.current, v.Now());
    OperateUnfolds(v.program, fuel, op, left, right, v.current, s, l);
    parts := v.ExecuteExpr(fuel, left);
    if parts.NextStep? {
      ghost var r := Eval(v.program, fuel, right, v.current, v.Now());
      parts := v.ExecuteExpr(fuel, right);
      LogicalEnds(op, l, r);
      AboveFits(base, l.Operands(), v.stack.Contents(), parts, v.Now(), r);
    }
  }

  /** There is no short circuit: running "left && right", or the same with ||, has the effects of
      running left and then right, whatever left is worth, and throws what they throw. */
  method NoShortCircuit(a: Vm, b: Vm, fuel: nat, op: Op, left: Expr, right: Expr) returns (whole: Signal, parts: Signal)
    requires a.Valid() && b.Valid() && Alike(a, b) && Apart(a, b) && IsLogical(op) && fuel > 0
    modifies a, a.stack, a.stack.cells, b, b.stack, b.stack.cells
    ensures a.Valid() && b.Valid() && whole == parts && a.Now() == b.Now() && a.current == b.current
    ensures !whole.NextStep? ==> Alike(a, b)
  {
    whole := a.ExecuteExpr(fuel, Operate(op, left, right));
    parts := LeftThenRight(b, fuel - 1, op, left, right);
  }

  lemma LogicalEnds(op: Op, l: Result, r: Result)
    requires IsLogical(op) && IsExprSignal(r.signal) && l.signal.NextStep?
    ensures Operated(op, l, r).signal == r.signal
    ensures !r.signal.NextStep? ==> Operated(op, l, r) == r.Above(l.Operands())
  {
  }

  /** A finally block runs after a normal end of all before it and after nothing else: a statement
      with one does what the statement without does and then, when that ends normally, the block. */
  method FinallyAfterNormalEnd(a: Vm, b: Vm, fuel: nat, body: seq<Statement>, catches: seq<Catch>,
                               noException: OptionalBlock, finally: seq<Statement>)
    returns (whole: Signal, parts: Signal)
    requires a.Valid() && b.Valid() && Alike(a, b) && Apart(a, b) && fuel > 0
    modifies a, a.stack, a.stack.cells, b, b.stack, b.stack.cells
    ensures a.Valid() && b.Valid() && whole == parts && Alike(a, b)
  {
    ghost var base, p, f, s := a.stack.Contents(), a.program, a.current, a.Now();
    ghost var r := ExecTry(p, fuel - 1, body, catches, noException, f, s);
    whole := a.ExecuteStatement(fuel, Try(body, catches, noException, Given(finally)));
    parts := b.ExecuteStatement(fuel, Try(body, catches, noException, Missing));
    if parts.NextStep? {
      parts := b.ExecuteAbove(fuel - 1, finally, base, r.left);
    }
  }

  /** continue in a loop that tests last skips the test: a body that starts with it never ends,
      whatever the condition. */
  lemma {:induction false} ContinueSkipsTheTest(p: Program, fuel: nat, cond: Expr, rest: seq<Statement>, f: nat,
                                                s: State)
    requires f < |s.frames|
    ensures ExecWhile(p, fuel, false, cond, [Do(Continue)] + rest, f, s).signal == Unfinished
  {
    if fuel > 0 {
      var body := [Do(Continue)] + rest;
      StartsWithContinue(p, fuel - 1, body, f, s);
      var b := Exec(p, fuel - 1, false, body, f, s);
      assert AfterBody(p, fuel - 1, false, cond, f, b) == (b.signal.Continued?, b);
      var (again, r) := IterateBody(p, fuel - 1, false, cond, body, f, s);
      assert Iterate(p, fuel - 1, false, cond, body, f, s) == (again, r);
      if again { ContinueSkipsTheTest(p, fuel - 1, cond, rest, f, r.state); }
    }
  }

  lemma StartsWithContinue(p: Program, fuel: nat, body: seq<Statement>, f: nat, s: State)
    requires f < |s.frames| && body != [] && body[0] == Do(Continue)
    ensures Exec(p, fuel, false, body, f, s) == Signalled(if fuel < 2 then Unfinished else Continued, s)
  {
    if fuel >= 2 {
      assert ExecLine(p, fuel - 2, Continue, f, s) == Signalled(Continued, s);
      assert ExecOne(p, fuel - 1, body[0], f, s) == Signalled(Continued, s);
    } else if fuel == 1 {
      assert ExecOne(p, 0, body[0], f, s) == Signalled(Unfinished, s);
    }
  }

  /** The state in which condition i is asked about the exception. */
  function Asked(p: Program, fuel: nat, catches: seq<Catch>, i: nat, f: nat, s: State): (r: State)
    requires i <= |catches| && f < |s.frames|
    ensures |s.frames| <= |r.frames|
  {
    if i == 0 then s else Matches(p, fuel, catches[i - 1], f, Asked(p, fuel, catches, i - 1, f, s)).state
  }

  predicate Takes(p: Program, fuel: nat, catches: seq<Catch>, i: nat, f: nat, s: State)
    requires i < |catches| && f < |s.frames|
  {
    var c := Matches(p, fuel, catches[i], f, Asked(p, fuel, catches, i, f, s));
    c.signal.NextStep? && Truth(c.value)
  }

  /** What the conditions before have left behind: those that threw, most likely. */
  function LeftByAsking(p: Program, fuel: nat, catches: seq<Catch>, i: nat, f: nat, s: State): seq<Value>
    requires i <= |catches| && f < |s.frames|
  {
    if i == 0 then []
    else
      LeftByAsking(p, fuel, catches, i - 1, f, s)
      + Matches(p, fuel, catches[i - 1], f, Asked(p, fuel, catches, i - 1, f, s)).left
  }

  /** The clauses from i on. */
  function From(p: Program, fuel: nat, catches: seq<Catch>, i: nat, f: nat, s: State): Result
    requires i <= |catches| && f < |s.frames|
  {
    ExecCatches(p, fuel, catches[i..], f, Asked(p, fuel, catches, i, f, s))
      .Above(LeftByAsking(p, fuel, catches, i, f, s))
  }

  lemma NextClause(p: Program, fuel: nat, catches: seq<Catch>, i: nat, f: nat, s: State)
    requires i < |catches| && f < |s.frames| && !Takes(p, fuel, catches, i, f, s)
      && !Stuck(From(p, fuel, catches, i, f, s).signal)
    ensures From(p, fuel, catches, i + 1, f, s) == From(p, fuel, catches, i, f, s)
  {
    ExecCatchesStep(p, fuel, catches, i, f, Asked(p, fuel, catches, i, f, s), LeftByAsking(p, fuel, catches, i, f, s));
  }

  lemma TakingClause(p: Program, fuel: nat, catches: seq<Catch>, i: nat, f: nat, s: State)
    requires i < |catches| && f < |s.frames| && Takes(p, fuel, catches, i, f, s)
    ensures From(p, fuel, catches, i, f, s) ==
      Handle(p, fuel, catches[i], f, Asked(p, fuel, catches, i + 1, f, s))
        .Above(LeftByAsking(p, fuel, catches, i + 1, f, s))
  {
    ExecCatchesStep(p, fuel, catches, i, f, Asked(p, fuel, catches, i, f, s), LeftByAsking(p, fuel, catches, i, f, s));
  }

  /** The first clause that takes the exception handles it, with no exception pending any more;
      when none does, it goes on. */
  lemma FirstMatchHandles(p: Program, fuel: nat, catches: seq<Catch>, f: nat, s: State) returns (i: nat)
    requires f < |s.frames| && !Stuck(ExecCatches(p, fuel, catches, f, s).signal)
    ensures i <= |catches| && forall j :: 0 <= j < i ==> !Takes(p, fuel, catches, j, f, s)
    ensures i < |catches| ==> Takes(p, fuel, catches, i, f, s)
    ensures var all := ExecCatches(p, fuel, catches, f, s);
      if i < |catches| then
        all ==
          Handle(p, fuel, catches[i], f, Asked(p, fuel, catches, i + 1, f, s))
            .Above(LeftByAsking(p, fuel, catches, i + 1, f, s))
      else
        all == Result(Thrown, Stale, LeftByAsking(p, fuel, catches, i, f, s), Asked(p, fuel, catches, i, f, s))
  {
    i := 0;
    AboveNothing(ExecCatches(p, fuel, catches, f, s));
    assert catches[0..] == catches;
    while i < |catches| && !Takes(p, fuel, catches, i, f, s)
      invariant i <= |catches| && From(p, fuel, catches, i, f, s) == ExecCatches(p, fuel, catches, f, s)
      invariant forall j :: 0 <= j < i ==> !Takes(p, fuel, catches, j, f, s)
    {
      NextClause(p, fuel, catches, i, f, s);
      i := i + 1;
    }
    if i < |catches| {
      TakingClause(p, fuel, catches, i, f, s);
    } else {
      var left := LeftByAsking(p, fuel, catches, i, f, s);
      assert left + [] == left;
    }
  }

  /** A function that runs to its end returns the value of its last line. */
  lemma {:induction false} LastLineIsReturned(p: Program, fuel: nat, block: seq<Statement>, e: Expr, f: nat, s: State)
    requires f < |s.frames| && fuel > 1
    requires ExecAll(p, fuel - 1, block, f, s).signal.NextStep?
    requires Eval(p, fuel - 2, e, f, ExecAll(p, fuel - 1, block, f, s).state).signal.NextStep?
    ensures var r := Exec(p, fuel, true, block + [Do(Plain(e))], f, s);
      r.signal == Returned && r.value == Eval(p, fuel - 2, e, f, ExecAll(p, fuel - 1, block, f, s).state).value
  {
    var last := [Do(Plain(e))];
    OneAfterTheOther(p, fuel - 1, block, last, f, s);
    var s1 := ExecAll(p, fuel - 1, block, f, s).state;
    assert last[1..] == [];
    assert ExecLine(p, fuel - 2, Plain(e), f, s1) == Eval(p, fuel - 2, e, f, s1);
    assert ExecOne(p, fuel - 1, last[0], f, s1) == Keep(Eval(p, fuel - 2, e, f, s1), f);
  }

  /** Statements in a row: the second part starts where the first ends. */
  lemma {:induction false} OneAfterTheOther(p: Program, fuel: nat, first: seq<Statement>, second: seq<Statement>,
                                            f: nat, s: State)
    requires f < |s.frames|
    ensures var r := ExecAll(p, fuel, first, f, s);
      ExecAll(p, fuel, first + second, f, s) ==
        if r.signal.NextStep? then ExecAll(p, fuel, second, f, r.state).Above(r.left) else r
    decreases |first|
  {
    if first == [] {
      assert first + second == second;
      AboveNothing(ExecAll(p, fuel, second, f, s));
    } else {
      assert (first + second)[1..] == first[1..] + second;
      var r := ExecOne(p, fuel, first[0], f, s);
      if r.signal.NextStep? {
        OneAfterTheOther(p, fuel, first[1..], second, f, r.state);
        var rest := ExecAll(p, fuel, first[1..], f, r.state);
        if rest.signal.NextStep? { AboveTwice(ExecAll(p, fuel, second, f, rest.state), r.left, rest.left); }
      }
    }
  }

  /** The body of a catch clause may leave by return, break and continue. */
  lemma CatchMayLeave(p: Program, fuel: nat, x: string, line: Line, f: nat, s: State)
    requires f < |s.frames| && fuel >= 6 && (line.Break? || line.Continue? || line == Return(Const(0)))
    ensures ExecOne(p, fuel, Try([Do(Raise(Const(1)))], [Catch(x, [], [Do(line)])], Missing, Missing), f, s).signal
      == if line.Break? then Broke else if line.Continue? then Continued else Returned
  {
    var body, clause := [Do(Raise(Const(1)))], Catch(x, [], [Do(line)]);
    var s1 := s.(exception := [Int(1)]);
    assert Eval(p, fuel - 3, Const(1), f, s) == Done(Int(1), s);
    OneLine(p, fuel - 1, Raise(Const(1)), f, s);
    assert Exec(p, fuel - 1, false, body, f, s) == Result(Thrown, Stale, [], s1);
    HandledBy(p, fuel - 1, clause, line, f, s1);
    assert [clause][0] == clause;
    assert ExecCatches(p, fuel - 1, [clause], f, s1).signal == Handle(p, fuel - 1, clause, f, s1).signal;
    assert ExecTry(p, fuel - 1, body, [clause], Missing, f, s).signal == Handle(p, fuel - 1, clause, f, s1).signal;
  }

  lemma HandledBy(p: Program, fuel: nat, clause: Catch, line: Line, f: nat, s: State)
    requires f < |s.frames| && fuel >= 5 && clause.block == [Do(line)]
    requires line.Break? || line.Continue? || line == Return(Const(0))
    ensures Handle(p, fuel, clause, f, s).signal ==
      if line.Break? then Broke else if line.Continue? then Continued else Returned
  {
    var m := Method([Param(clause.name, [])], Code(clause.block));
    var pushed := [s.frames[f].this_, Exception(s)];
    var s1 := s.(exception := []);
    var s2 := s1.(frames := s1.frames + [Frame([Bind(m.params, pushed[1..])], pushed[0], [f], f, Stale)]);
    OneLine(p, fuel, line, |s1.frames|, s2);
    assert Eval(p, fuel - 2, Const(0), |s1.frames|, s2) == Done(Int(0), s2);
    assert Invoke(p, fuel, m, false, pushed, [f], f, s1).signal ==
      Exec(p, fuel, false, clause.block, |s1.frames|, s2).signal;
  }

  lemma OneLine(p: Program, fuel: nat, line: Line, f: nat, s: State)
    requires f < |s.frames| && fuel >= 2 && !ExecLine(p, fuel - 2, line, f, s).signal.NextStep?
    ensures var r := ExecLine(p, fuel - 2, line, f, s);
      Exec(p, fuel, false, [Do(line)], f, s) == if r.signal.Thrown? then r.(left := []) else r
  {
    assert ExecOne(p, fuel - 1, [Do(line)][0], f, s) == ExecLine(p, fuel - 2, line, f, s);
  }

  /** What an assignment writes to: the variable that the name stood for before the right-hand side
      was evaluated, or a reference that the right-hand side has left behind. */
  function Target(located: Value, r: Result): Value {
    if r.left == [] then located else r.left[|r.left| - 1]
  }

  /** An assignment throws iff its right-hand side has left something else than a reference on top of
      the one to assign to. */
  lemma AssignmentThrows(p: Program, fuel: nat, outer: bool, x: string, right: Expr, f: nat, s: State)
    requires f < |s.frames| && Eval(p, fuel, right, f, Locate(s, f, outer, x).1).signal.NextStep?
    ensures var (place, s1) := Locate(s, f, outer, x);
      EvalAssign(p, fuel, outer, x, right, f, s).signal.Thrown? <==>
        !Target(Ref(place, x), Eval(p, fuel, right, f, s1)).Ref?
  {
    var (place, s1) := Locate(s, f, outer, x);
    var r := Eval(p, fuel, right, f, s1);
    var all := [Ref(place, x)] + r.Operands();
    assert all[|all| - 2] == Target(Ref(place, x), r);
  }

  /** An assignment changes its target, and no other variable. */
  lemma AssignmentIsLocal(p: Program, fuel: nat, outer: bool, x: string, right: Expr, f: nat, s: State, place: Place,
                          y: string)
    requires f < |s.frames| && EvalAssign(p, fuel, outer, x, right, f, s).signal.NextStep?
    ensures var (located, s1) := Locate(s, f, outer, x);
      var r := Eval(p, fuel, right, f, s1);
      var target, after := Target(Ref(located, x), r), EvalAssign(p, fuel, outer, x, right, f, s).state;
      && target.Ref? && (Ref(place, y) != target ==> Read(after, place, y) == Read(r.state, place, y))
      && (target.place.Global? || target.place.frame < |r.state.frames| ==>
            Read(after, target.place, target.name) == r.value)
  {
    var (located, s1) := Locate(s, f, outer, x);
    var r := Eval(p, fuel, right, f, s1);
    var all := [Ref(located, x)] + r.Operands();
    assert all[|all| - 2] == Target(Ref(located, x), r) && all[|all| - 1] == r.value;
    WriteIsLocal(r.state, all[|all| - 2].place, all[|all| - 2].name, r.value, place, y);
  }

  lemma WriteIsLocal(s: State, place: Place, x: string, v: Value, other: Place, y: string)
    ensures place.Global? || place.frame < |s.frames| ==> Read(Write(s, place, x, v), place, x) == v
    ensures place != other || x != y ==> Read(Write(s, place, x, v), other, y) == Read(s, other, y)
  {
  }
}
