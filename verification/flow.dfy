/** Where control goes, said of runs: the branch of an if, the rounds of a loop, the lines that leave a
    block, and what an exception finds when it is caught. */
module Flow {
  import opened Script
  import opened Evaluator
  import F = Fuel

  /** The same but for the operands left behind. */
  predicate Alike(a: Result, b: Result) {
    a.signal == b.signal && a.value == b.value && a.state == b.state
  }

  // ----- loops -----

  /** A loop that tests first: a test that does not hold ends it, one that holds lets the body run. Behind
      a body that ends normally or with continue the loop goes on, behind break it is over, and whatever
      else comes leaves it. */
  lemma TestsFirst(p: Program, fuel: nat, cond: Expr, body: seq<Statement>, f: nat, s: State)
    requires f < |s.frames|
    ensures var r, c := ExecWhile(p, fuel + 1, true, cond, body, f, s), Eval(p, fuel, cond, f, s);
      if !c.signal.NextStep? then r == c
      else if !Truth(c.value) then r == Result(NextStep, c.value, c.left, c.state)
      else
        var b := Exec(p, fuel, false, body, f, c.state);
        if b.signal.NextStep? || b.signal.Continued? then
          r == ExecWhile(p, fuel, true, cond, body, f, b.state).Above(c.left + b.left)
        else if b.signal.Broke? then r == Result(NextStep, b.value, c.left + b.left, b.state)
        else r == b.Above(c.left)
  {
    var c := Eval(p, fuel, cond, f, s);
    if c.signal.NextStep? && Truth(c.value) {
      var b := Exec(p, fuel, false, body, f, c.state);
      assert IterateBody(p, fuel, true, cond, body, f, c.state) == AfterBody(p, fuel, true, cond, f, b);
    }
  }

  /** A loop that tests last: the body runs at once, and the test is made only behind a normal end of it. */
  lemma TestsLast(p: Program, fuel: nat, cond: Expr, body: seq<Statement>, f: nat, s: State)
    requires f < |s.frames|
    ensures var r, b := ExecWhile(p, fuel + 1, false, cond, body, f, s), Exec(p, fuel, false, body, f, s);
      if b.signal.NextStep? then
        var c := Eval(p, fuel, cond, f, b.state);
        if c.signal.NextStep? && Truth(c.value) then
          r == ExecWhile(p, fuel, false, cond, body, f, c.state).Above(b.left + c.left)
        else r == c.Above(b.left)
      else if b.signal.Continued? then r == ExecWhile(p, fuel, false, cond, body, f, b.state).Above(b.left)
      else if b.signal.Broke? then r == Result(NextStep, b.value, b.left, b.state)
      else r == b
  {
    var b := Exec(p, fuel, false, body, f, s);
    assert Iterate(p, fuel, false, cond, body, f, s) == AfterBody(p, fuel, false, cond, f, b);
  }

  predicate Holds(p: Program, fuel: nat, cond: Expr, f: nat, s: State)
    requires f < |s.frames|
  {
    Eval(p, fuel, cond, f, s).signal.NextStep? && Truth(Eval(p, fuel, cond, f, s).value)
  }

  function Tested(p: Program, fuel: nat, cond: Expr, f: nat, s: State): (r: State)
    requires f < |s.frames|
    ensures |s.frames| <= |r.frames|
  {
    Eval(p, fuel, cond, f, s).state
  }

  /** Where one round from state s brings the loop to, when it goes on. */
  function Round(p: Program, fuel: nat, front: bool, cond: Expr, body: seq<Statement>, f: nat,
                 s: State): (to: seq<State>)
    requires f < |s.frames|
    ensures to != [] ==> f < |to[0].frames|
  {
    if front && !Holds(p, fuel, cond, f, s) then []
    else
      var b := Exec(p, fuel, false, body, f, if front then Tested(p, fuel, cond, f, s) else s);
      if b.signal.Continued? || (front && b.signal.NextStep?) then [b.state]
      else if b.signal.NextStep? && Holds(p, fuel, cond, f, b.state) then [Tested(p, fuel, cond, f, b.state)]
      else []
  }

  /** Where the loop ends normally from state s without a further round: where the test is not met, or at
      a break. */
  function Over(p: Program, fuel: nat, front: bool, cond: Expr, body: seq<Statement>, f: nat, s: State): seq<State>
    requires f < |s.frames|
  {
    var c := Eval(p, fuel, cond, f, s);
    if front && !c.signal.NextStep? then []
    else if front && !Truth(c.value) then [c.state]
    else
      var b := Exec(p, fuel, false, body, f, if front then c.state else s);
      if b.signal.Broke? then [b.state]
      else if front || !b.signal.NextStep? then []
      else
        var t := Eval(p, fuel, cond, f, b.state);
        if t.signal.NextStep? && !Truth(t.value) then [t.state] else []
  }

  /** Round after round, each with one level of depth less. */
  ghost predicate Rounds(p: Program, fuel: nat, front: bool, cond: Expr, body: seq<Statement>, f: nat,
                         states: seq<State>) {
    && 0 < |states| <= fuel && (forall i :: 0 <= i < |states| ==> f < |states[i].frames|)
    && forall i {:trigger states[i]} :: 0 <= i < |states| - 1 ==>
         Round(p, fuel - 1 - i, front, cond, body, f, states[i]) == [states[i + 1]]
  }

  /** The two loops end alike. */
  predicate SameEnd(p: Program, fuel: nat, front: bool, cond: Expr, body: seq<Statement>, f: nat, s: State, s1: State)
    requires f < |s.frames| && f < |s1.frames|
  {
    Alike(ExecWhile(p, fuel + 1, front, cond, body, f, s), ExecWhile(p, fuel, front, cond, body, f, s1))
  }

  lemma RoundGoesOn(p: Program, fuel: nat, front: bool, cond: Expr, body: seq<Statement>, f: nat, s: State, s1: State)
    requires f < |s.frames| && Round(p, fuel, front, cond, body, f, s) == [s1]
    ensures f < |s1.frames| && SameEnd(p, fuel, front, cond, body, f, s, s1)
  {
    assert [s1][0] == s1;
    if front { FrontGoesOn(p, fuel, cond, body, f, s, s1); } else { BackGoesOn(p, fuel, cond, body, f, s, s1); }
  }

  lemma FrontGoesOn(p: Program, fuel: nat, cond: Expr, body: seq<Statement>, f: nat, s: State, s1: State)
    requires f < |s.frames| && f < |s1.frames| && Round(p, fuel, true, cond, body, f, s) == [s1]
    ensures SameEnd(p, fuel, true, cond, body, f, s, s1)
  {
    TestsFirst(p, fuel, cond, body, f, s);
  }

  lemma BackGoesOn(p: Program, fuel: nat, cond: Expr, body: seq<Statement>, f: nat, s: State, s1: State)
    requires f < |s.frames| && f < |s1.frames| && Round(p, fuel, false, cond, body, f, s) == [s1]
    ensures SameEnd(p, fuel, false, cond, body, f, s, s1)
  {
    TestsLast(p, fuel, cond, body, f, s);
  }

  lemma OverEnds(p: Program, fuel: nat, front: bool, cond: Expr, body: seq<Statement>, f: nat, s: State, s1: State)
    requires f < |s.frames| && Over(p, fuel, front, cond, body, f, s) == [s1]
    ensures var r := ExecWhile(p, fuel + 1, front, cond, body, f, s); r.signal.NextStep? && r.state == s1
  {
    if front { TestsFirst(p, fuel, cond, body, f, s); } else { TestsLast(p, fuel, cond, body, f, s); }
  }

  /** A loop that ends normally begins with a round, or is over. */
  lemma RoundOrOver(p: Program, fuel: nat, front: bool, cond: Expr, body: seq<Statement>, f: nat, s: State)
    returns (goesOn: bool, s1: State)
    requires f < |s.frames| && ExecWhile(p, fuel + 1, front, cond, body, f, s).signal.NextStep?
    ensures (if goesOn then Round(p, fuel, front, cond, body, f, s) else Over(p, fuel, front, cond, body, f, s)) == [s1]
  {
    if front {
      TestsFirst(p, fuel, cond, body, f, s);
      s1 := Tested(p, fuel, cond, f, s);
      goesOn := Holds(p, fuel, cond, f, s);
      if goesOn {
        var b := Exec(p, fuel, false, body, f, s1);
        goesOn, s1 := !b.signal.Broke?, b.state;
      }
    } else {
      TestsLast(p, fuel, cond, body, f, s);
      var b := Exec(p, fuel, false, body, f, s);
      goesOn, s1 := b.signal.Continued?, b.state;
      if b.signal.NextStep? {
        goesOn, s1 := Holds(p, fuel, cond, f, b.state), Tested(p, fuel, cond, f, b.state);
      }
    }
  }

  lemma FirstRound(p: Program, fuel: nat, front: bool, cond: Expr, body: seq<Statement>, f: nat, s: State,
                   states: seq<State>)
    requires Rounds(p, fuel, front, cond, body, f, states) && f < |s.frames|
    requires Round(p, fuel, front, cond, body, f, s) == [states[0]]
    ensures Rounds(p, fuel + 1, front, cond, body, f, [s] + states)
  {
    var all := [s] + states;
    forall i {:trigger all[i]} | 0 <= i < |all| - 1
      ensures Round(p, fuel - i, front, cond, body, f, all[i]) == [all[i + 1]]
    {
      if i > 0 { assert all[i] == states[i - 1] && all[i + 1] == states[i] && fuel - 1 - (i - 1) == fuel - i; }
    }
  }

  /** The loop ends normally, in state end. */
  predicate EndsIn(p: Program, fuel: nat, front: bool, cond: Expr, body: seq<Statement>, f: nat, s: State, end: State) {
    f < |s.frames| && ExecWhile(p, fuel, front, cond, body, f, s).signal.NextStep?
    && ExecWhile(p, fuel, front, cond, body, f, s).state == end
  }

  /** A loop that ends normally has run its rounds, each from the state that the one before has left, and
      is over where the last of them leads. */
  lemma {:induction false} EndsBehindItsRounds(p: Program, fuel: nat, front: bool, cond: Expr, body: seq<Statement>,
                                               f: nat, s: State, end: State)
    returns (states: seq<State>, left: nat, last: State)
    requires EndsIn(p, fuel, front, cond, body, f, s, end)
    ensures Rounds(p, fuel, front, cond, body, f, states) && states[0] == s
    ensures left == fuel - |states| && last == states[|states| - 1]
    ensures Over(p, left, front, cond, body, f, last) == [end]
  {
    var less: nat := fuel - 1;
    var goesOn, s1 := RoundOrEnd(p, less, front, cond, body, f, s, end);
    if goesOn {
      states, left, last := EndsBehindItsRounds(p, less, front, cond, body, f, s1, end);
      FirstRound(p, less, front, cond, body, f, s, states);
      states := [s] + states;
    } else {
      states, left, last := [s], less, s;
    }
  }

  lemma RoundOrEnd(p: Program, fuel: nat, front: bool, cond: Expr, body: seq<Statement>, f: nat, s: State, end: State)
    returns (goesOn: bool, s1: State)
    requires EndsIn(p, fuel + 1, front, cond, body, f, s, end)
    ensures goesOn ==>
      Round(p, fuel, front, cond, body, f, s) == [s1] && EndsIn(p, fuel, front, cond, body, f, s1, end)
    ensures !goesOn ==> Over(p, fuel, front, cond, body, f, s) == [end]
  {
    goesOn, s1 := RoundOrOver(p, fuel, front, cond, body, f, s);
    if goesOn {
      RoundGoesOn(p, fuel, front, cond, body, f, s, s1);
    } else {
      OverEnds(p, fuel, front, cond, body, f, s, s1);
    }
  }

  /** And whatever rounds there are, the loop has run them: it ends normally where the last one is over. */
  lemma {:induction false} RoundsAreRun(p: Program, fuel: nat, front: bool, cond: Expr, body: seq<Statement>, f: nat,
                                        states: seq<State>, end: State, left: nat, last: State)
    requires Rounds(p, fuel, front, cond, body, f, states)
    requires left == fuel - |states| && last == states[|states| - 1]
    requires Over(p, left, front, cond, body, f, last) == [end]
    ensures EndsIn(p, fuel, front, cond, body, f, states[0], end)
    decreases |states|
  {
    if |states| == 1 {
      OverEnds(p, left, front, cond, body, f, last, end);
    } else {
      var less: nat := fuel - 1;
      RoundsAfter(p, less, front, cond, body, f, states);
      RoundsAreRun(p, less, front, cond, body, f, states[1..], end, left, last);
      FirstIsRun(p, less, front, cond, body, f, states, end);
    }
  }

  lemma FirstIsRun(p: Program, fuel: nat, front: bool, cond: Expr, body: seq<Statement>, f: nat, states: seq<State>,
                   end: State)
    requires Rounds(p, fuel + 1, front, cond, body, f, states) && |states| > 1
    requires EndsIn(p, fuel, front, cond, body, f, states[1], end)
    ensures EndsIn(p, fuel + 1, front, cond, body, f, states[0], end)
  {
    assert Round(p, fuel, front, cond, body, f, states[0]) == [states[1]];
    RoundGoesOn(p, fuel, front, cond, body, f, states[0], states[1]);
  }

  lemma RoundsAfter(p: Program, fuel: nat, front: bool, cond: Expr, body: seq<Statement>, f: nat, states: seq<State>)
    requires Rounds(p, fuel + 1, front, cond, body, f, states) && |states| > 1
    ensures Rounds(p, fuel, front, cond, body, f, states[1..])
  {
    var after := states[1..];
    forall i {:trigger after[i]} | 0 <= i < |after| - 1
      ensures Round(p, fuel - 1 - i, front, cond, body, f, after[i]) == [after[i + 1]]
    {
      assert after[i] == states[i + 1] && after[i + 1] == states[i + 2] && fuel - (i + 1) == fuel - 1 - i;
    }
  }

  // ----- if -----

  /** The conditions of the first branches do not hold, each asked in the state that the one before has
      left. */
  ghost predicate Refused(p: Program, fuel: nat, branches: seq<Branch>, f: nat, states: seq<State>) {
    && 0 < |states| <= |branches| + 1 && (forall i :: 0 <= i < |states| ==> f < |states[i].frames|)
    && forall i {:trigger states[i]} :: 0 <= i < |states| - 1 ==>
         Refusal(p, fuel, branches[i], f, states[i]) == [states[i + 1]]
  }

  /** The state behind a condition that does not hold. */
  function Refusal(p: Program, fuel: nat, branch: Branch, f: nat, s: State): seq<State>
    requires f < |s.frames|
  {
    if branch.cond == [] then []
    else
      var c := Eval(p, fuel, branch.cond[0], f, s);
      if c.signal.NextStep? && !Truth(c.value) then [c.state] else []
  }

  /** The first branch whose condition holds, or that has none, runs, and no other; with a condition that
      does not end normally the statement ends there. */
  lemma {:induction false} FirstBranchRuns(p: Program, fuel: nat, branches: seq<Branch>, f: nat, s: State)
    returns (states: seq<State>)
    requires f < |s.frames|
    ensures Refused(p, fuel, branches, f, states) && states[0] == s
    ensures var i, r := |states| - 1, ExecIf(p, fuel, branches, f, s);
      if i == |branches| then Alike(r, Signalled(NextStep, states[i]))
      else if branches[i].cond == [] then Alike(r, Exec(p, fuel, false, branches[i].block, f, states[i]))
      else
        var c := Eval(p, fuel, branches[i].cond[0], f, states[i]);
        if !c.signal.NextStep? then Alike(r, c)
        else Truth(c.value) && Alike(r, Exec(p, fuel, false, branches[i].block, f, c.state))
  {
    states := [s];
    if branches != [] {
      var refused := Refusal(p, fuel, branches[0], f, s);
      if refused != [] {
        var after := FirstBranchRuns(p, fuel, branches[1..], f, refused[0]);
        FirstRefused(p, fuel, branches, f, s, after);
        states := [s] + after;
      }
    }
  }

  lemma FirstRefused(p: Program, fuel: nat, branches: seq<Branch>, f: nat, s: State, states: seq<State>)
    requires branches != [] && f < |s.frames| && Refused(p, fuel, branches[1..], f, states)
    requires Refusal(p, fuel, branches[0], f, s) == [states[0]]
    ensures Refused(p, fuel, branches, f, [s] + states)
  {
    var all := [s] + states;
    forall i {:trigger all[i]} | 0 <= i < |all| - 1
      ensures Refusal(p, fuel, branches[i], f, all[i]) == [all[i + 1]]
    {
      if i > 0 { assert all[i] == states[i - 1] && all[i + 1] == states[i] && branches[i] == branches[1..][i - 1]; }
    }
  }

  // ----- lines -----

  /** A line with a trailing if runs exactly when the condition holds, in the state that this leaves. */
  lemma TrailingIf(p: Program, fuel: nat, line: Line, cond: Expr, f: nat, s: State)
    requires f < |s.frames|
    ensures var r, c := ExecLine(p, fuel, BackIf(line, cond), f, s), Eval(p, fuel, cond, f, s);
      if Holds(p, fuel, cond, f, s) then Alike(r, ExecLine(p, fuel, line, f, c.state))
      else r.signal == c.signal && r.state == c.state
  {
  }

  /** Return ends a function with its value and changes nothing else; raise makes its value the exception,
      and the null pointer raises nothing yet. */
  lemma ValuesAreReturnedAndRaised(p: Program, fuel: nat, e: Expr, f: nat, s: State)
    requires f < |s.frames| && Eval(p, fuel, e, f, s).signal.NextStep?
    ensures var r := Eval(p, fuel, e, f, s);
      && Alike(ExecLine(p, fuel, Return(e), f, s), Result(Returned, r.value, [], r.state))
      && ExecLine(p, fuel, Raise(e), f, s).signal.Thrown?
      && var after := ExecLine(p, fuel, Raise(e), f, s).state;
        after.frames == r.state.frames && after.globals == r.state.globals && after.objects == r.state.objects
        && (if r.value == Nothing then after.exception == [] else after.exception == [r.value])
  {
  }

  /** A function that is left by break or continue throws an error that has not been there before. */
  lemma LoopLinesDoNotLeaveFunctions(p: Program, fuel: nat, block: seq<Statement>, f: nat, s: State)
    requires f < |s.frames|
    requires Exec(p, fuel, false, block, f, s).signal.Broke? || Exec(p, fuel, false, block, f, s).signal.Continued?
    ensures var r, b := Exec(p, fuel, true, block, f, s), Exec(p, fuel, false, block, f, s);
      r.signal.Thrown? && NewError(b.state, r.state)
  {
  }

  /** State s1 is s with a new error as the exception: objects are numbered in the order of their making. */
  predicate NewError(s: State, s1: State) {
    && s1.exception == [Object(s.objects)] && s1.objects == s.objects + 1
    && s1.frames == s.frames && s1.globals == s.globals
  }

  // ----- try -----

  /** State s1 is s with a frame for a catch clause: the parameter is its only local variable, "this" and
      the owner are those of the code around it. */
  predicate InClause(s: State, x: string, v: Value, f: nat, s1: State)
    requires f < |s.frames|
  {
    var n := |s.frames|;
    && |s1.frames| == n + 1 && s1.frames[..n] == s.frames && s1.globals == s.globals && s1.objects == s.objects
    && s1.frames[n].locals == [map[x := v]] && s1.frames[n].this_ == s.frames[f].this_
    && s1.frames[n].owner == [f] && s1.frames[n].previous == f
  }

  /** The condition of a catch clause is asked while the exception is pending, with the parameter bound
      to it. */
  lemma ClauseIsAsked(p: Program, fuel: nat, clause: Catch, v: Value, f: nat, s: State) returns (at: State)
    requires f < |s.frames| && s.exception == [v] && clause.cond != []
    ensures InClause(s, clause.name, v, f, at) && at.exception == [v]
    ensures Alike(Matches(p, fuel, clause, f, s), Eval(p, fuel, clause.cond[0], |s.frames|, at))
  {
    var m := Method([Param(clause.name, [])], Single(clause.cond[0]));
    at := InClauseFrame(m, clause.name, v, f, s);
    RunsInItsFrame(p, fuel, m, true, [s.frames[f].this_, v], [f], f, s);
    assert EvalBody(p, fuel, m.body, true, |s.frames|, at) == Eval(p, fuel, clause.cond[0], |s.frames|, at);
  }

  /** The block of a catch clause runs with the exception over and the parameter bound to it. */
  lemma ClauseHandles(p: Program, fuel: nat, clause: Catch, v: Value, f: nat, s: State) returns (at: State)
    requires f < |s.frames| && s.exception == [v]
    ensures InClause(s, clause.name, v, f, at) && at.exception == []
    ensures Alike(Handle(p, fuel, clause, f, s), Exec(p, fuel, false, clause.block, |s.frames|, at))
  {
    var m := Method([Param(clause.name, [])], Code(clause.block));
    var s1 := s.(exception := []);
    at := InClauseFrame(m, clause.name, v, f, s1);
    RunsInItsFrame(p, fuel, m, false, [s.frames[f].this_, v], [f], f, s1);
    assert EvalBody(p, fuel, m.body, false, |s.frames|, at) == Exec(p, fuel, false, clause.block, |s.frames|, at);
  }

  lemma RunsInItsFrame(p: Program, fuel: nat, m: Method, isRoot: bool, pushed: seq<Value>, owner: seq<nat>, f: nat,
                       s: State)
    requires |pushed| > |m.params|
    ensures Alike(Invoke(p, fuel, m, isRoot, pushed, owner, f, s),
                  EvalBody(p, fuel, m.body, isRoot, |s.frames|, Entered(m, pushed, owner, f, s)))
  {
  }

  lemma InClauseFrame(m: Method, x: string, v: Value, f: nat, s: State) returns (at: State)
    requires f < |s.frames| && m.params == [Param(x, [])]
    ensures at == Entered(m, [s.frames[f].this_, v], [f], f, s)
    ensures InClause(s, x, v, f, at) && at.exception == s.exception
  {
    at := Entered(m, [s.frames[f].this_, v], [f], f, s);
    assert [s.frames[f].this_, v][1..] == [v] && [v][1..] == [] && m.params[1..] == [];
    assert Bind(m.params, [v]) == map[x := v];
  }

  /** The body of a try statement decides what comes next: the clauses when it throws, with a new error
      when there is no exception object; the block for no exception when it ends normally; else nothing. */
  lemma TryGoesOn(p: Program, fuel: nat, body: seq<Statement>, catches: seq<Catch>, noException: OptionalBlock,
                  f: nat, s: State)
    returns (s1: State)
    requires f < |s.frames|
    ensures var r, b := ExecTry(p, fuel, body, catches, noException, f, s), Exec(p, fuel, false, body, f, s);
      if b.signal.Thrown? then
        && (if b.state.exception == [] then NewError(b.state, s1) else s1 == b.state)
        && Alike(r, ExecCatches(p, fuel, catches, f, s1))
      else if b.signal.NextStep? && noException.Given? then
        Alike(r, Exec(p, fuel, false, noException.block, f, b.state))
      else Alike(r, b)
  {
    var b := Exec(p, fuel, false, body, f, s);
    s1 := if b.signal.Thrown? && b.state.exception == [] then Failed(b.state) else b.state;
  }

  /** What is raised is caught: the block of the clause finds the value under the clause's name. */
  lemma RaisedIsCaught(p: Program, fuel: nat, e: Expr, x: string, block: seq<Statement>, noException: OptionalBlock,
                       f: nat, s: State)
    returns (at: State)
    requires f < |s.frames| && Eval(p, fuel, e, f, s).signal.NextStep? && !Eval(p, fuel, e, f, s).value.Nothing?
    ensures var r := Eval(p, fuel, e, f, s);
      && InClause(r.state, x, r.value, f, at) && at.exception == []
      && Alike(ExecOne(p, fuel + 4, Try([Do(Raise(e))], [Catch(x, [], block)], noException, Missing), f, s),
               Exec(p, fuel + 3, false, block, |r.state.frames|, at))
  {
    var r, raise, clause := Eval(p, fuel, e, f, s), [Do(Raise(e))], Catch(x, [], block);
    RaiseThrows(p, fuel, e, f, s);
    var s1 := Exec(p, fuel + 3, false, raise, f, s).state;
    at := ClauseHandles(p, fuel + 3, clause, r.value, f, s1);
    OnlyClause(p, fuel + 3, clause, f, s1);
    var _ := TryGoesOn(p, fuel + 3, raise, [clause], noException, f, s);
    WithoutFinally(p, fuel + 3, raise, [clause], noException, f, s);
  }

  lemma WithoutFinally(p: Program, fuel: nat, body: seq<Statement>, catches: seq<Catch>, noException: OptionalBlock,
                       f: nat, s: State)
    requires f < |s.frames|
    ensures ExecOne(p, fuel + 1, Try(body, catches, noException, Missing), f, s) ==
      ExecTry(p, fuel, body, catches, noException, f, s)
  {
  }

  lemma RaiseThrows(p: Program, fuel: nat, e: Expr, f: nat, s: State)
    requires f < |s.frames| && Eval(p, fuel, e, f, s).signal.NextStep? && !Eval(p, fuel, e, f, s).value.Nothing?
    ensures var r := Eval(p, fuel, e, f, s);
      Exec(p, fuel + 3, false, [Do(Raise(e))], f, s) == Result(Thrown, Stale, [], r.state.(exception := [r.value]))
  {
    var r, raise := Eval(p, fuel, e, f, s), [Do(Raise(e))];
    F.EvalMore(p, fuel, e, f, s);
    var thrown := Result(Thrown, Stale, r.left, r.state.(exception := [r.value]));
    assert ExecLine(p, fuel + 1, Raise(e), f, s) == thrown;
    assert ExecOne(p, fuel + 2, raise[0], f, s) == thrown;
  }

  lemma OnlyClause(p: Program, fuel: nat, clause: Catch, f: nat, s: State)
    requires f < |s.frames| && clause.cond == []
    ensures Alike(ExecCatches(p, fuel, [clause], f, s), Handle(p, fuel, clause, f, s))
  {
    assert Matches(p, fuel, [clause][0], f, s) == Done(Int(1), s);
  }
}
