/** The executor: result codes, one operand stack and one current frame, threaded through mutually
    recursive routines. */
module Executor {
  import opened Script
  import opened Evaluator
  import opened OperandStack

  /** The run of an expression or a line on the operands before: they are untouched, and on top of
      them is exactly what the evaluator says. */
  ghost predicate ExprFits(before: seq<Value>, after: seq<Value>, signal: Signal, now: State, r: Result) {
    after == before + r.Operands() && signal == r.signal && now == r.state
  }

  /** The same for a statement or a block. */
  ghost predicate BlockFits(before: seq<Value>, after: seq<Value>, signal: Signal, now: State, r: Result) {
    after == before + r.Remains() && signal == r.signal && now == r.state
  }

  ghost predicate ListFits(before: seq<Value>, after: seq<Value>, signal: Signal, now: State, r: Results) {
    after == before + r.values && signal == r.signal && now == r.state
  }

  /** A test is popped when there is one. */
  ghost predicate TestFits(before: seq<Value>, after: seq<Value>, signal: Signal, holds: bool, now: State, r: Result) {
    after == before + r.left && signal == r.signal && now == r.state && holds == (r.signal.NextStep? && Truth(r.value))
  }

  /** A round of a loop leaves nothing but what it leaves behind when there is to be another. */
  ghost predicate RoundFits(before: seq<Value>, after: seq<Value>, again: bool, signal: Signal, now: State, more: bool,
                            r: Result) {
    && again == more && (again ==> after == before + r.left && now == r.state)
    && (!again ==> BlockFits(before, after, signal, now, r))
  }

  // ----- one step of each routine, above operands that are there already -----

  lemma OnTop(base: seq<Value>, a: seq<Value>, b: seq<Value>)
    ensures (base + a) + b == base + (a + b)
  {
  }

  lemma AboveFits(base: seq<Value>, mid: seq<Value>, after: seq<Value>, signal: Signal, now: State, r: Result)
    ensures ExprFits(base + mid, after, signal, now, r) ==> ExprFits(base, after, signal, now, r.Above(mid))
    ensures BlockFits(base + mid, after, signal, now, r) ==> BlockFits(base, after, signal, now, r.Above(mid))
  {
    OnTop(base, mid, r.Operands());
    OnTop(base, mid, r.Remains());
    OnTop(mid, r.left, [r.value]);
  }

  lemma AboveTwice(r: Result, a: seq<Value>, b: seq<Value>)
    ensures r.Above(b).Above(a) == r.Above(a + b)
  {
    OnTop(a, b, r.left);
  }

  lemma AboveTwiceList(r: Results, a: seq<Value>, b: seq<Value>)
    ensures r.Above(b).Above(a) == r.Above(a + b)
  {
    OnTop(a, b, r.values);
  }

  lemma AboveNothing(r: Result)
    ensures r.Above([]) == r
  {
    assert [] + r.left == r.left;
  }

  /** The topmost operand is the value, and what is below it was left behind. */
  lemma Popped(base: seq<Value>, left: seq<Value>, value: Value, before: seq<Value>, after: seq<Value>, top: Value)
    requires before == base + (left + [value]) && before == after + [top]
    ensures top == value && after == base + left
  {
    OnTop(base, left, [value]);
    assert before[|before| - 1] == value && before[..|before| - 1] == base + left;
  }

  lemma TopTwo(base: seq<Value>, all: seq<Value>)
    requires |all| >= 2
    ensures var n := |base + all|; (base + all)[n - 2] == all[|all| - 2] && (base + all)[n - 1] == all[|all| - 1]
  {
  }

  /** The last two operands give way to one. */
  lemma TwoForOne(base: seq<Value>, all: seq<Value>, mid: seq<Value>, low: seq<Value>, a: Value, b: Value, v: Value)
    requires |all| >= 2 && base + all == mid + [b] && mid == low + [a]
    ensures a == all[|all| - 2] && b == all[|all| - 1] && low + [v] == base + (all[..|all| - 2] + [v])
  {
    var n := |all| - 2;
    assert all == all[..n] + [all[n], all[n + 1]];
    TopTwo(base, all);
    assert (base + all)[..|base| + n] == base + all[..n];
    OnTop(base, all[..n], [v]);
  }

  /** One more expression of a list. */
  lemma EvalAllStep(p: Program, fuel: nat, es: seq<Expr>, i: nat, f: nat, s: State, done: seq<Value>)
    requires i < |es| && f < |s.frames|
    ensures var r := Eval(p, fuel, es[i], f, s);
      EvalAll(p, fuel, es[i..], f, s).Above(done) ==
        if r.signal.NextStep? then EvalAll(p, fuel, es[i + 1..], f, r.state).Above(done + r.Operands())
        else Results(r.signal, done + r.left, r.state)
  {
    var r := Eval(p, fuel, es[i], f, s);
    assert es[i..][1..] == es[i + 1..];
    if r.signal.NextStep? { AboveTwiceList(EvalAll(p, fuel, es[i + 1..], f, r.state), done, r.Operands()); }
  }

  lemma EvalDefaultsStep(p: Program, fuel: nat, params: seq<Param>, i: nat, f: nat, s: State, done: seq<Value>)
    requires i < |params| && f < |s.frames|
    ensures params[i].default == [] ==> EvalDefaults(p, fuel, params[i..], f, s).Above(done) == Results(Thrown, done, s)
    ensures params[i].default != [] ==>
      var r := Eval(p, fuel, params[i].default[0], f, s);
      EvalDefaults(p, fuel, params[i..], f, s).Above(done) ==
        if r.signal.NextStep? then EvalDefaults(p, fuel, params[i + 1..], f, r.state).Above(done + r.Operands())
        else Results(r.signal, done + r.left, r.state)
  {
    assert params[i..][1..] == params[i + 1..] && done + [] == done;
    if params[i].default != [] {
      var r := Eval(p, fuel, params[i].default[0], f, s);
      if r.signal.NextStep? { AboveTwiceList(EvalDefaults(p, fuel, params[i + 1..], f, r.state), done, r.Operands()); }
    }
  }

  lemma ExecAllStep(p: Program, fuel: nat, block: seq<Statement>, i: nat, f: nat, s: State, done: seq<Value>)
    requires i < |block| && f < |s.frames|
    ensures var r := ExecOne(p, fuel, block[i], f, s);
      ExecAll(p, fuel, block[i..], f, s).Above(done) ==
        if r.signal.NextStep? then ExecAll(p, fuel, block[i + 1..], f, r.state).Above(done + r.left)
        else r.Above(done)
  {
    var r := ExecOne(p, fuel, block[i], f, s);
    assert block[i..][1..] == block[i + 1..];
    if r.signal.NextStep? { AboveTwice(ExecAll(p, fuel, block[i + 1..], f, r.state), done, r.left); }
  }

  /** What is still to be done in an if statement, from branch i on. */
  lemma ExecIfStep(p: Program, fuel: nat, branches: seq<Branch>, i: nat, f: nat, s: State, done: seq<Value>)
    requires i < |branches| && f < |s.frames|
    ensures branches[i].cond == [] ==>
      ExecIf(p, fuel, branches[i..], f, s).Above(done) == Exec(p, fuel, false, branches[i].block, f, s).Above(done)
    ensures branches[i].cond != [] ==>
      var c := Eval(p, fuel, branches[i].cond[0], f, s);
      ExecIf(p, fuel, branches[i..], f, s).Above(done) ==
        if !c.signal.NextStep? then c.Above(done)
        else if Truth(c.value) then Exec(p, fuel, false, branches[i].block, f, c.state).Above(done + c.left)
        else ExecIf(p, fuel, branches[i + 1..], f, c.state).Above(done + c.left)
  {
    assert branches[i..][1..] == branches[i + 1..];
    if branches[i].cond != [] {
      var c := Eval(p, fuel, branches[i].cond[0], f, s);
      if c.signal.NextStep? {
        AboveTwice(Exec(p, fuel, false, branches[i].block, f, c.state), done, c.left);
        AboveTwice(ExecIf(p, fuel, branches[i + 1..], f, c.state), done, c.left);
      }
    }
  }

  lemma ExecWhileStep(p: Program, fuel: nat, front: bool, cond: Expr, body: seq<Statement>, f: nat, s: State,
                      done: seq<Value>)
    requires fuel > 0 && f < |s.frames|
    ensures var (again, r) := Iterate(p, fuel - 1, front, cond, body, f, s);
      ExecWhile(p, fuel, front, cond, body, f, s).Above(done) ==
        if again then ExecWhile(p, fuel - 1, front, cond, body, f, r.state).Above(done + r.left) else r.Above(done)
  {
    var (again, r) := Iterate(p, fuel - 1, front, cond, body, f, s);
    if again { AboveTwice(ExecWhile(p, fuel - 1, front, cond, body, f, r.state), done, r.left); }
  }

  lemma ExecCatchesStep(p: Program, fuel: nat, catches: seq<Catch>, i: nat, f: nat, s: State, done: seq<Value>)
    requires i < |catches| && f < |s.frames|
    ensures var c := Matches(p, fuel, catches[i], f, s);
      ExecCatches(p, fuel, catches[i..], f, s).Above(done) ==
        if Stuck(c.signal) then c.Above(done)
        else if c.signal.NextStep? && Truth(c.value) then
          Handle(p, fuel, catches[i], f, c.state).Above(done + c.left)
        else ExecCatches(p, fuel, catches[i + 1..], f, c.state).Above(done + c.left)
  {
    var c := Matches(p, fuel, catches[i], f, s);
    assert catches[i..][1..] == catches[i + 1..];
    if !Stuck(c.signal) {
      AboveTwice(Handle(p, fuel, catches[i], f, c.state), done, c.left);
      AboveTwice(ExecCatches(p, fuel, catches[i + 1..], f, c.state), done, c.left);
    }
  }

  lemma CallUnfolds(p: Program, fuel: nat, x: string, args: seq<Expr>, f: nat, s: State, callee: Callee,
                    pushed: Results)
    requires f < |s.frames| && callee == Resolve(p, x, |args|, f, s) && callee.Callee?
    requires pushed == EvalArguments(p, fuel, callee.code, args, f, s).Above([callee.self])
    ensures EvalCall(p, fuel, x, args, f, s) ==
      if pushed.signal.NextStep? then Invoke(p, fuel, callee.code, true, pushed.values, callee.owner, f, pushed.state)
      else CallFailed(pushed)
  {
  }

  class Vm {
    const stack: Stack
    const program: Program
    var frames: seq<Frame>
    var globals: map<string, Value>
    var exception: seq<Value>
    var objects: nat
    var current: nat

    constructor (s: Stack, p: Program, initial: map<string, Value>)
      requires s.Valid()
      ensures Valid() && stack == s && program == p
      ensures Now() == State([Frame([], SELF, [], 0, Int(0))], initial, [], 1)
    {
      stack, program := s, p;
      frames, globals, exception, objects, current := [Frame([], SELF, [], 0, Int(0))], initial, [], 1, 0;
    }

    ghost predicate Valid()
      reads this, stack
    {
      stack.Valid() && current < |frames|
    }

    function Now(): State
      reads this
    {
      State(frames, globals, exception, objects)
    }

    /** What every routine keeps: the current frame is the one it was, and its place in the chain of
        calls. */
    twostate predicate Kept()
      reads this, stack, stack.cells
    {
      && Valid() && (stack.cells == old(stack.cells) || fresh(stack.cells))
      && current == old(current) && Extends(old(frames), frames)
    }

    method Become(s: State)
      requires Valid() && Extends(frames, s.frames)
      modifies this`frames, this`globals, this`exception, this`objects
      ensures Valid() && Now() == s && Extends(old(frames), frames)
    {
      frames, globals, exception, objects := s.frames, s.globals, s.exception, s.objects;
    }

    /** An internal error: an error object is made and thrown. */
    method RaiseInternalError() returns (signal: Signal)
      requires Valid()
      modifies this`exception, this`objects
      ensures Valid() && Now() == Failed(old(Now())) && signal == Thrown
    {
      exception, objects := [Object(objects)], objects + 1;
      signal := Thrown;
    }

    /** Finds a variable from a frame, or creates it there. */
    method FindOrCreate(from: nat, x: string, global: bool) returns (place: Place)
      requires Valid() && from < |frames|
      modifies this`frames
      ensures Valid() && Extends(old(frames), frames)
      ensures var found := Find(old(Now()), from, x, global);
        if found != [] then place == found[0] && Now() == old(Now())
        else place == Local(from) && Now() == Write(old(Now()), place, x, Int(0))
    {
      var found := Find(Now(), from, x, global);
      place := Local(from);
      if found != [] {
        place := found[0];
      } else {
        frames := Write(Now(), place, x, Int(0)).frames;
      }
    }

    /** Finds a variable or creates it, and pushes its value or a reference to it. A name after
        "owner." finds the owner item on the stack. */
    method ExecuteName(outer: bool, x: string, reference: bool)
      requires Valid()
      modifies this`frames, stack, stack.cells
      ensures Kept()
      ensures var (place, s1) := Locate(old(Now()), current, outer, x);
        Now() == s1
          && stack.Contents() == old(stack.Contents()) + [if reference then Ref(place, x) else Read(s1, place, x)]
    {
      var from := FindOwner(outer);
      var place := FindOrCreate(from, x, !outer);
      stack.Push(if reference then Ref(place, x) else Read(Now(), place, x));
    }

    /** The frame that a name is looked up from. */
    method FindOwner(outer: bool) returns (from: nat)
      requires Valid()
      modifies stack, stack.cells
      ensures Kept() && stack.Contents() == old(stack.Contents()) && from == Base(Now(), current, outer)
    {
      from := current;
      if outer {
        stack.Push(Owner);
        var owner := stack.Pop();
        if owner.Owner? { from := Base(Now(), current, true); }
      }
    }

    // ----- expressions -----

    method ExecuteExpr(fuel: nat, e: Expr) returns (signal: Signal)
      requires Valid()
      modifies this, stack, stack.cells
      ensures Kept()
      ensures ExprFits(old(stack.Contents()), stack.Contents(), signal, Now(),
                       Eval(program, fuel, e, current, old(Now())))
      decreases fuel, 0, 0
    {
      if fuel == 0 { return Unfinished; }
      match e {
        case Assign(outer, x, right) => signal := ExecuteAssign(fuel - 1, outer, x, right);
        case Operate(op, left, right) => signal := ExecuteOperate(fuel - 1, op, left, right);
        case Call(x, args) => signal := ExecuteCall(fuel - 1, x, args);
        case _ =>
          PushOperand(fuel, e);
          signal := NextStep;
      }
    }

    /** A number, a variable or a code value. */
    method PushOperand(ghost fuel: nat, e: Expr)
      requires Valid() && fuel > 0 && (e.Const? || e.Name? || e.Lambda?)
      modifies this`frames, stack, stack.cells
      ensures Kept()
      ensures ExprFits(old(stack.Contents()), stack.Contents(), NextStep, Now(),
                       Eval(program, fuel, e, current, old(Now())))
    {
      match e {
        case Const(n) => stack.Push(Int(Made(n)));
        case Name(outer, x) => ExecuteName(outer, x, false);
        case Lambda(code) => stack.Push(Node(code, current, frames[current].this_));
      }
    }

    method ExecuteAssign(fuel: nat, outer: bool, x: string, right: Expr) returns (signal: Signal)
      requires Valid()
      modifies this, stack, stack.cells
      ensures Kept()
      ensures ExprFits(old(stack.Contents()), stack.Contents(), signal, Now(),
                       EvalAssign(program, fuel, outer, x, right, current, old(Now())))
      decreases fuel, 1, 0
    {
      ghost var base, target := stack.Contents(), Ref(Locate(Now(), current, outer, x).0, x);
      ExecuteName(outer, x, true);
      signal := AssignRight(fuel, right, base, target);
    }

    /** The right-hand side, above the reference, and the assignment. */
    method AssignRight(fuel: nat, right: Expr, ghost base: seq<Value>, ghost target: Value) returns (signal: Signal)
      requires Valid() && stack.Contents() == base + [target]
      modifies this, stack, stack.cells
      ensures Kept()
      ensures ExprFits(base, stack.Contents(), signal, Now(),
                       AssignedTo(target, Eval(program, fuel, right, current, old(Now()))))
      decreases fuel, 0, 1
    {
      ghost var r := Eval(program, fuel, right, current, Now());
      signal := ExecuteExpr(fuel, right);
      AboveFits(base, [target], stack.Contents(), signal, Now(), r);
      if signal.NextStep? {
        OnTop(base, [target], r.Operands());
        signal := CallAssignment(base, [target] + r.Operands());
      }
    }

    /** Assignment, the native method of references, on the two topmost operands. */
    method CallAssignment(ghost base: seq<Value>, ghost all: seq<Value>) returns (signal: Signal)
      requires Valid() && stack.Contents() == base + all && |all| >= 2
      modifies this`frames, this`globals, this`exception, this`objects, stack, stack.cells
      ensures Kept() && ExprFits(base, stack.Contents(), signal, Now(), Assigned(all, old(Now())))
    {
      TopTwo(base, all);
      var target := stack.At(1);
      signal := Thrown;
      if target.Ref? {
        var value := stack.Pop();
        ghost var mid := stack.Contents();
        target := stack.Pop();
        TwoForOne(base, all, mid, stack.Contents(), target, value, target);
        Become(Write(Now(), target.place, target.name, value));
        stack.Push(target);
        signal := NextStep;
      }
    }

    method ExecuteOperate(fuel: nat, op: Op, left: Expr, right: Expr) returns (signal: Signal)
      requires Valid()
      modifies this, stack, stack.cells
      ensures Kept()
      ensures ExprFits(old(stack.Contents()), stack.Contents(), signal, Now(),
                       EvalOperate(program, fuel, op, left, right, current, old(Now())))
      decreases fuel, 1, 0
    {
      ghost var s, base := Now(), stack.Contents();
      ghost var l := Eval(program, fuel, left, current, s);
      OperateUnfolds(program, fuel, op, left, right, current, s, l);
      signal := ExecuteExpr(fuel, left);
      if signal.NextStep? {
        signal := ExecuteRight(fuel, op, right, base, l);
      }
    }

    /** The right operand, above what the left one has come to, and the operator. */
    method ExecuteRight(fuel: nat, op: Op, right: Expr, ghost base: seq<Value>, ghost l: Result)
      returns (signal: Signal)
      requires Valid() && stack.Contents() == base + l.Operands() && l.signal.NextStep?
      modifies this, stack, stack.cells
      ensures Kept()
      ensures ExprFits(base, stack.Contents(), signal, Now(),
                       Operated(op, l, Eval(program, fuel, right, current, old(Now()))))
      decreases fuel, 0, 1
    {
      ghost var r := Eval(program, fuel, right, current, Now());
      signal := ExecuteExpr(fuel, right);
      AboveFits(base, l.Operands(), stack.Contents(), signal, Now(), r);
      if signal.NextStep? {
        OnTop(base, l.Operands(), r.Operands());
        signal := CallOperator(op, base, l.Operands() + r.Operands());
      }
    }

    /** The operator of the left operand's class, a native method on the two topmost operands. */
    method CallOperator(op: Op, ghost base: seq<Value>, ghost all: seq<Value>) returns (signal: Signal)
      requires Valid() && stack.Contents() == base + all && |all| >= 2
      modifies stack, stack.cells
      ensures Kept() && ExprFits(base, stack.Contents(), signal, Now(), Combine(op, all, old(Now())))
    {
      TopTwo(base, all);
      var l := stack.At(1);
      var r := stack.At(0);
      var result := Apply(op, l, r);
      signal := Thrown;
      if result != [] {
        r := stack.Pop();
        ghost var mid := stack.Contents();
        l := stack.Pop();
        TwoForOne(base, all, mid, stack.Contents(), l, r, result[0]);
        stack.Push(result[0]);
        signal := NextStep;
      }
    }

    // ----- calls -----

    method ExecuteCall(fuel: nat, x: string, args: seq<Expr>) returns (signal: Signal)
      requires Valid()
      modifies this, stack, stack.cells
      ensures Kept()
      ensures ExprFits(old(stack.Contents()), stack.Contents(), signal, Now(),
                       EvalCall(program, fuel, x, args, current, old(Now())))
      decreases fuel, 4, 0
    {
      var callee := Resolve(program, x, |args|, current, Now());
      match callee {
        case NoCallee => signal := RaiseInternalError();
        case UnknownCallee => signal := Undefined;
        case Callee(code, self, owner) =>
          ghost var base := stack.Contents();
          ghost var pushed := EvalArguments(program, fuel, code, args, current, Now()).Above([self]);
          CallUnfolds(program, fuel, x, args, current, Now(), callee, pushed);
          signal := PushParameters(fuel, code, args, self);
          if signal.NextStep? {
            signal := CallMethod(fuel, code, true, owner, base, pushed.values);
          } else if signal.Thrown? && exception == [] {
            signal := RaiseInternalError();
          }
      }
    }

    /** Pushes the owner of a method, the arguments, and the defaults of the missing ones. */
    method PushParameters(fuel: nat, m: Method, args: seq<Expr>, self: Value) returns (signal: Signal)
      requires Valid()
      modifies this, stack, stack.cells
      ensures Kept()
      ensures ListFits(old(stack.Contents()), stack.Contents(), signal, Now(),
                       EvalArguments(program, fuel, m, args, current, old(Now())).Above([self]))
      decreases fuel, 3, 0
    {
      ghost var base, given := stack.Contents(), EvalAll(program, fuel, args, current, Now());
      stack.Push(self);
      signal := PushAll(fuel, args);
      OnTop(base, [self], given.values);
      if signal.NextStep? && |args| < |m.params| {
        ghost var rest := EvalDefaults(program, fuel, m.params[|args|..], current, Now());
        AboveTwiceList(rest, [self], given.values);
        OnTop(base, [self] + given.values, rest.values);
        signal := PushDefaults(fuel, m.params[|args|..]);
      }
    }

    method PushAll(fuel: nat, es: seq<Expr>) returns (signal: Signal)
      requires Valid()
      modifies this, stack, stack.cells
      ensures Kept()
      ensures ListFits(old(stack.Contents()), stack.Contents(), signal, Now(),
                       EvalAll(program, fuel, es, current, old(Now())))
      decreases fuel, 2, |es|
    {
      signal := NextStep;
      ghost var base, all, done := stack.Contents(), EvalAll(program, fuel, es, current, Now()), [];
      var i := 0;
      while i < |es| && signal.NextStep?
        invariant Kept() && i <= |es| && stack.Contents() == base + done
        invariant signal.NextStep? ==> EvalAll(program, fuel, es[i..], current, Now()).Above(done) == all
        invariant !signal.NextStep? ==> Results(signal, done, Now()) == all
      {
        ghost var r := Eval(program, fuel, es[i], current, Now());
        EvalAllStep(program, fuel, es, i, current, Now(), done);
        OnTop(base, done, r.Operands());
        signal := ExecuteExpr(fuel, es[i]);
        done := done + r.Operands();
        i := i + 1;
      }
    }

    method PushDefaults(fuel: nat, params: seq<Param>) returns (signal: Signal)
      requires Valid()
      modifies this, stack, stack.cells
      ensures Kept()
      ensures ListFits(old(stack.Contents()), stack.Contents(), signal, Now(),
                       EvalDefaults(program, fuel, params, current, old(Now())))
      decreases fuel, 2, |params|
    {
      signal := NextStep;
      ghost var base, all, done := stack.Contents(), EvalDefaults(program, fuel, params, current, Now()), [];
      var i := 0;
      while i < |params| && signal.NextStep?
        invariant Kept() && i <= |params| && stack.Contents() == base + done
        invariant signal.NextStep? ==> EvalDefaults(program, fuel, params[i..], current, Now()).Above(done) == all
        invariant !signal.NextStep? ==> Results(signal, done, Now()) == all
      {
        signal, done := PushDefault(fuel, params, i, base, done, all);
        i := i + 1;
      }
    }

    method PushDefault(fuel: nat, params: seq<Param>, i: nat,
                       ghost base: seq<Value>, ghost done: seq<Value>, ghost all: Results)
      returns (signal: Signal, ghost done': seq<Value>)
      requires Valid() && i < |params| && stack.Contents() == base + done
      requires EvalDefaults(program, fuel, params[i..], current, Now()).Above(done) == all
      modifies this, stack, stack.cells
      ensures Kept() && stack.Contents() == base + done'
      ensures signal.NextStep? ==> EvalDefaults(program, fuel, params[i + 1..], current, Now()).Above(done') == all
      ensures !signal.NextStep? ==> Results(signal, done', Now()) == all
      decreases fuel, 1, 0
    {
      EvalDefaultsStep(program, fuel, params, i, current, Now(), done);
      if params[i].default == [] {
        signal, done' := Thrown, done;
      } else {
        ghost var r := Eval(program, fuel, params[i].default[0], current, Now());
        OnTop(base, done, r.Operands());
        signal := ExecuteExpr(fuel, params[i].default[0]);
        done' := done + r.Operands();
      }
    }

    /** Runs a method in a new frame, with the parameters and "this" popped from what was pushed
        on top of base. */
    method CallMethod(fuel: nat, m: Method, isRoot: bool, owner: seq<nat>, ghost base: seq<Value>,
                      ghost pushed: seq<Value>)
      returns (signal: Signal)
      requires Valid() && stack.Contents() == base + pushed && |pushed| > |m.params|
      modifies this, stack, stack.cells
      ensures Kept()
      ensures var r := Invoke(program, fuel, m, isRoot, pushed, owner, current, old(Now()));
        if isRoot || m.body.Single? then ExprFits(base, stack.Contents(), signal, Now(), r)
        else BlockFits(base, stack.Contents(), signal, Now(), r)
      decreases fuel, 3, 0
    {
      ghost var below := pushed[..|pushed| - |m.params| - 1];
      EnterFrame(m.params, owner, base, pushed);
      signal := BodyAbove(fuel, m.body, isRoot, base, below);
      current := frames[current].previous;
    }

    method BodyAbove(fuel: nat, body: Body, isRoot: bool, ghost base: seq<Value>, ghost below: seq<Value>)
      returns (signal: Signal)
      requires Valid() && stack.Contents() == base + below
      modifies this, stack, stack.cells
      ensures Kept()
      ensures var r := EvalBody(program, fuel, body, isRoot, current, old(Now())).Above(below);
        if isRoot || body.Single? then ExprFits(base, stack.Contents(), signal, Now(), r)
        else BlockFits(base, stack.Contents(), signal, Now(), r)
      decreases fuel, 2, 1
    {
      ghost var r := EvalBody(program, fuel, body, isRoot, current, Now());
      signal := ExecuteBody(fuel, body, isRoot);
      AboveFits(base, below, stack.Contents(), signal, Now(), r);
    }

    method ExecuteBody(fuel: nat, body: Body, isRoot: bool) returns (signal: Signal)
      requires Valid()
      modifies this, stack, stack.cells
      ensures Kept()
      ensures var r := EvalBody(program, fuel, body, isRoot, current, old(Now()));
        if isRoot || body.Single? then ExprFits(old(stack.Contents()), stack.Contents(), signal, Now(), r)
        else BlockFits(old(stack.Contents()), stack.Contents(), signal, Now(), r)
      decreases fuel, 2, 0
    {
      match body {
        case Single(e) => signal := ExecuteExpr(fuel, e);
        case Code(block) =>
          signal := ExecuteBlock(fuel, isRoot, block);
          if signal.Returned? && isRoot { signal := NextStep; }
      }
    }

    /** Makes a new frame current, with the parameters by name. */
    method EnterFrame(params: seq<Param>, owner: seq<nat>, ghost base: seq<Value>, ghost pushed: seq<Value>)
      requires Valid() && stack.Contents() == base + pushed && |pushed| > |params|
      modifies this`frames, this`current, stack`current
      ensures Valid() && Extends(old(frames), frames) && current == |old(frames)|
      ensures stack.Contents() == base + pushed[..|pushed| - |params| - 1]
      ensures Now() == old(Now()).(frames := old(frames) + [NewFrame(params, pushed, owner, old(current))])
    {
      var locals: seq<map<string, Value>> := [];
      if |params| > 0 {
        var table := PopParameters(params, base, pushed);
        locals := [table];
      }
      ghost var n := |pushed| - |params|;
      assert (base + pushed)[..|base| + n] == base + pushed[..n];
      var this_ := stack.Pop();
      assert pushed[..n] == pushed[..n - 1] + [this_] by {
        assert (base + pushed[..n])[|base| + n - 1] == pushed[n - 1];
      }
      frames := frames + [Frame(locals, this_, owner, current, Stale)];
      current := |frames| - 1;
    }

    /** Pops the parameters, the last one first. */
    method PopParameters(params: seq<Param>, ghost base: seq<Value>, ghost pushed: seq<Value>)
      returns (table: map<string, Value>)
      requires Valid() && stack.Contents() == base + pushed && |pushed| > |params|
      modifies stack`current
      ensures stack.Valid() && stack.Contents() == base + pushed[..|pushed| - |params|]
      ensures table == Bind(params, pushed[|pushed| - |params|..])
    {
      ghost var all, kept := base + pushed, |base + pushed| - |params|;
      table := map[];
      var index := |params|;
      while index > 0
        invariant 0 <= index <= |params| && stack.Valid() && stack.Contents() == all[..kept + index]
        invariant table == Bind(params[index..], all[kept + index..])
        modifies stack`current
      {
        index := index - 1;
        var value := stack.Pop();
        table := table[params[index].name := value];
      }
      assert params[0..] == params && all[kept..] == pushed[|pushed| - |params|..];
      assert all[..kept] == base + pushed[..|pushed| - |params|];
    }

    // ----- blocks and statements -----

    /** A block. A throw cuts the stack back to where it was, but for the one that stands for a break
        or continue out of a function. */
    method ExecuteBlock(fuel: nat, isRoot: bool, block: seq<Statement>) returns (signal: Signal)
      requires Valid()
      modifies this, stack, stack.cells
      ensures Kept()
      ensures isRoot ==> signal.Returned? || signal.Thrown? || Stuck(signal)
      ensures signal.Thrown? && !isRoot ==> stack.Contents() == old(stack.Contents())
      ensures BlockFits(old(stack.Contents()), stack.Contents(), signal, Now(),
                        Exec(program, fuel, isRoot, block, current, old(Now())))
      decreases fuel, 1, 0
    {
      if fuel == 0 { return Unfinished; }
      var height := stack.current;
      signal := ExecuteAll(fuel - 1, block);
      if (signal.Broke? || signal.Continued?) && isRoot {
        signal := RaiseInternalError();
      } else if signal.NextStep? && isRoot {
        stack.Push(frames[current].last);
        signal := Returned;
      } else if signal.Thrown? {
        stack.SetCurrent(height);
      }
    }

    method ExecuteAll(fuel: nat, block: seq<Statement>) returns (signal: Signal)
      requires Valid()
      modifies this, stack, stack.cells
      ensures Kept()
      ensures BlockFits(old(stack.Contents()), stack.Contents(), signal, Now(),
                        ExecAll(program, fuel, block, current, old(Now())))
      decreases fuel, 3, |block|
    {
      signal := NextStep;
      ghost var base, all, done := stack.Contents(), ExecAll(program, fuel, block, current, Now()), [];
      AboveNothing(all);
      var i := 0;
      while i < |block| && signal.NextStep?
        invariant Kept() && i <= |block|
        invariant signal.NextStep? ==>
          stack.Contents() == base + done && ExecAll(program, fuel, block[i..], current, Now()).Above(done) == all
        invariant !signal.NextStep? ==> BlockFits(base, stack.Contents(), signal, Now(), all)
      {
        ghost var r := ExecOne(program, fuel, block[i], current, Now());
        ExecAllStep(program, fuel, block, i, current, Now(), done);
        signal := ExecuteStatement(fuel, block[i]);
        AboveFits(base, done, stack.Contents(), signal, Now(), r);
        done := done + r.left;
        i := i + 1;
      }
    }

    method ExecuteStatement(fuel: nat, statement: Statement) returns (signal: Signal)
      requires Valid()
      modifies this, stack, stack.cells
      ensures Kept()
      ensures BlockFits(old(stack.Contents()), stack.Contents(), signal, Now(),
                        ExecOne(program, fuel, statement, current, old(Now())))
      decreases fuel, 1, 0
    {
      if fuel == 0 { return Unfinished; }
      match statement {
        case Do(line) => signal := ExecuteLineStatement(fuel - 1, line);
        case If(branches) => signal := ExecuteIf(fuel - 1, branches);
        case While(front, cond, body) => signal := ExecuteWhile(fuel - 1, front, cond, body);
        case Try(body, catches, noException, finally) =>
          ghost var base, r := stack.Contents(), ExecTry(program, fuel - 1, body, catches, noException, current, Now());
          signal := ExecuteTry(fuel - 1, body, catches, noException);
          if signal.NextStep? && finally.Given? {
            ghost var last := Exec(program, fuel - 1, false, finally.block, current, Now());
            signal := ExecuteBlock(fuel - 1, false, finally.block);
            AboveFits(base, r.left, stack.Contents(), signal, Now(), last);
          }
      }
    }

    /** A line, whose value becomes the last result of the frame. */
    method ExecuteLineStatement(fuel: nat, line: Line) returns (signal: Signal)
      requires Valid()
      modifies this, stack, stack.cells
      ensures Kept()
      ensures BlockFits(old(stack.Contents()), stack.Contents(), signal, Now(),
                        Keep(ExecLine(program, fuel, line, current, old(Now())), current))
      decreases fuel, 3, 0
    {
      ghost var base, r := stack.Contents(), ExecLine(program, fuel, line, current, Now());
      signal := ExecuteLine(fuel, line);
      if signal.NextStep? {
        ghost var full := stack.Contents();
        var value := stack.Pop();
        Popped(base, r.left, r.value, full, stack.Contents(), value);
        frames := frames[current := frames[current].(last := value)];
      }
    }

    method ExecuteLine(fuel: nat, line: Line) returns (signal: Signal)
      requires Valid()
      modifies this, stack, stack.cells
      ensures Kept()
      ensures ExprFits(old(stack.Contents()), stack.Contents(), signal, Now(),
                       ExecLine(program, fuel, line, current, old(Now())))
      decreases fuel, 2, line, 0
    {
      match line {
        case Plain(e) => signal := ExecuteExpr(fuel, e);
        case Return(e) =>
          signal := ExecuteExpr(fuel, e);
          if signal.NextStep? { signal := Returned; }
        case Raise(e) => signal := ExecuteRaise(fuel, e);
        case Break => signal := Broke;
        case Continue => signal := Continued;
        case BackIf(inner, cond) =>
          signal := ExecuteBackIf(fuel, inner, cond);
      }
    }

    /** A condition that holds is popped, and one that does not is the value. */
    method ExecuteBackIf(fuel: nat, inner: Line, cond: Expr) returns (signal: Signal)
      requires Valid()
      modifies this, stack, stack.cells
      ensures Kept()
      ensures ExprFits(old(stack.Contents()), stack.Contents(), signal, Now(),
                       ExecLine(program, fuel, BackIf(inner, cond), current, old(Now())))
      decreases fuel, 2, inner, 1
    {
      ghost var base, c := stack.Contents(), Eval(program, fuel, cond, current, Now());
      signal := ExecuteExpr(fuel, cond);
      if signal.NextStep? {
        OnTop(base, c.left, [c.value]);
        var value := stack.At(0);
        if Truth(value) {
          ghost var full := stack.Contents();
          value := stack.Pop();
          Popped(base, c.left, c.value, full, stack.Contents(), value);
          ghost var r := ExecLine(program, fuel, inner, current, Now());
          signal := ExecuteLine(fuel, inner);
          AboveFits(base, c.left, stack.Contents(), signal, Now(), r);
        }
      }
    }

    method ExecuteRaise(fuel: nat, e: Expr) returns (signal: Signal)
      requires Valid()
      modifies this, stack, stack.cells
      ensures Kept()
      ensures ExprFits(old(stack.Contents()), stack.Contents(), signal, Now(),
                       ExecLine(program, fuel, Raise(e), current, old(Now())))
      decreases fuel, 1, 0
    {
      ghost var base, r := stack.Contents(), Eval(program, fuel, e, current, Now());
      signal := ExecuteExpr(fuel, e);
      if signal.NextStep? {
        ghost var full := stack.Contents();
        var value := stack.Pop();
        Popped(base, r.left, r.value, full, stack.Contents(), value);
        exception := Pending(value);
        signal := Thrown;
      }
    }

    /** Evaluates a condition and pops it. */
    method ExecuteCondition(fuel: nat, cond: Expr) returns (signal: Signal, holds: bool)
      requires Valid()
      modifies this, stack, stack.cells
      ensures Kept()
      ensures TestFits(old(stack.Contents()), stack.Contents(), signal, holds, Now(),
                       Eval(program, fuel, cond, current, old(Now())))
      decreases fuel, 1, 0
    {
      ghost var base, r := stack.Contents(), Eval(program, fuel, cond, current, Now());
      holds := false;
      signal := ExecuteExpr(fuel, cond);
      if signal.NextStep? {
        ghost var full := stack.Contents();
        var value := stack.Pop();
        Popped(base, r.left, r.value, full, stack.Contents(), value);
        holds := Truth(value);
      }
    }

    method ExecuteIf(fuel: nat, branches: seq<Branch>) returns (signal: Signal)
      requires Valid()
      modifies this, stack, stack.cells
      ensures Kept()
      ensures BlockFits(old(stack.Contents()), stack.Contents(), signal, Now(),
                        ExecIf(program, fuel, branches, current, old(Now())))
      decreases fuel, 2, |branches|
    {
      signal := NextStep;
      ghost var base, all, done := stack.Contents(), ExecIf(program, fuel, branches, current, Now()), [];
      AboveNothing(all);
      var i, more := 0, true;
      while more && i < |branches|
        invariant Kept() && i <= |branches|
        invariant more ==> signal == NextStep && stack.Contents() == base + done
        invariant more ==> ExecIf(program, fuel, branches[i..], current, Now()).Above(done) == all
        invariant !more ==> BlockFits(base, stack.Contents(), signal, Now(), all)
        decreases more, |branches| - i
      {
        signal, more, done := TryBranch(fuel, branches, i, base, done, all);
        i := i + 1;
      }
    }

    /** One branch runs, or its condition ends abruptly, or the branches behind it are left to try. */
    method TryBranch(fuel: nat, branches: seq<Branch>, i: nat,
                     ghost base: seq<Value>, ghost done: seq<Value>, ghost all: Result)
      returns (signal: Signal, more: bool, ghost done': seq<Value>)
      requires Valid() && i < |branches| && stack.Contents() == base + done
      requires ExecIf(program, fuel, branches[i..], current, Now()).Above(done) == all
      modifies this, stack, stack.cells
      ensures Kept()
      ensures more ==> signal == NextStep && stack.Contents() == base + done'
      ensures more ==> ExecIf(program, fuel, branches[i + 1..], current, Now()).Above(done') == all
      ensures !more ==> BlockFits(base, stack.Contents(), signal, Now(), all)
      decreases fuel, 2, 0
    {
      var holds := true;
      signal, more, done' := NextStep, false, done;
      ExecIfStep(program, fuel, branches, i, current, Now(), done);
      if branches[i].cond != [] {
        ghost var c := Eval(program, fuel, branches[i].cond[0], current, Now());
        signal, holds := ExecuteCondition(fuel, branches[i].cond[0]);
        OnTop(base, done, c.left);
        done' := done + c.left;
      }
      if signal.NextStep? {
        if holds {
          signal := ExecuteAbove(fuel, branches[i].block, base, done');
        } else {
          more := true;
        }
      }
    }

    method ExecuteWhile(fuel: nat, front: bool, cond: Expr, body: seq<Statement>) returns (signal: Signal)
      requires Valid()
      modifies this, stack, stack.cells
      ensures Kept()
      ensures !signal.Broke? && !signal.Continued?
      ensures BlockFits(old(stack.Contents()), stack.Contents(), signal, Now(),
                        ExecWhile(program, fuel, front, cond, body, current, old(Now())))
      decreases fuel, 5, 0
    {
      ghost var base, all, done := stack.Contents(), ExecWhile(program, fuel, front, cond, body, current, Now()), [];
      AboveNothing(all);
      var again, left: nat := true, fuel;
      signal := NextStep;
      while again && left > 0
        invariant Kept() && left <= fuel && (!again ==> !signal.Broke? && !signal.Continued?)
        invariant again ==> stack.Contents() == base + done
        invariant again ==> ExecWhile(program, left, front, cond, body, current, Now()).Above(done) == all
        invariant !again ==> BlockFits(base, stack.Contents(), signal, Now(), all)
      {
        left := left - 1;
        again, signal, done := ExecuteRound(left, front, cond, body, base, done, all);
      }
      if again { signal := Unfinished; }
    }

    /** A round of a loop leads on to the rest of the loop, or ends it. */
    method ExecuteRound(fuel: nat, front: bool, cond: Expr, body: seq<Statement>,
                        ghost base: seq<Value>, ghost done: seq<Value>, ghost all: Result)
      returns (again: bool, signal: Signal, ghost done': seq<Value>)
      requires Valid() && stack.Contents() == base + done
      requires ExecWhile(program, fuel + 1, front, cond, body, current, Now()).Above(done) == all
      modifies this, stack, stack.cells
      ensures Kept()
      ensures !again ==> !signal.Broke? && !signal.Continued? && BlockFits(base, stack.Contents(), signal, Now(), all)
      ensures again ==> stack.Contents() == base + done'
      ensures again ==> ExecWhile(program, fuel, front, cond, body, current, Now()).Above(done') == all
      decreases fuel, 5, 0
    {
      done' := done + Iterate(program, fuel, front, cond, body, current, Now()).1.left;
      ExecWhileStep(program, fuel + 1, front, cond, body, current, Now(), done);
      again, signal := ExecuteIteration(fuel, front, cond, body, base, done);
    }

    /** One round of a loop, above what earlier rounds have left. */
    method ExecuteIteration(fuel: nat, front: bool, cond: Expr, body: seq<Statement>, ghost base: seq<Value>,
                            ghost done: seq<Value>)
      returns (again: bool, signal: Signal)
      requires Valid() && stack.Contents() == base + done
      modifies this, stack, stack.cells
      ensures Kept()
      ensures !again ==> !signal.Broke? && !signal.Continued?
      ensures var (more, r) := Iterate(program, fuel, front, cond, body, current, old(Now()));
        RoundFits(base, stack.Contents(), again, signal, Now(), more, r.Above(done))
      decreases fuel, 4, 0
    {
      if !front {
        again, signal := ExecuteIterationBody(fuel, false, cond, body, base, done);
      } else {
        ghost var c := Eval(program, fuel, cond, current, Now());
        var holds;
        again := false;
        signal, holds := ExecuteCondition(fuel, cond);
        OnTop(base, done, c.left);
        if holds {
          AboveTwice(IterateBody(program, fuel, true, cond, body, current, Now()).1, done, c.left);
          again, signal := ExecuteIterationBody(fuel, true, cond, body, base, done + c.left);
        }
      }
    }

    method ExecuteIterationBody(fuel: nat, front: bool, cond: Expr, body: seq<Statement>, ghost base: seq<Value>,
                                ghost done: seq<Value>)
      returns (again: bool, signal: Signal)
      requires Valid() && stack.Contents() == base + done
      modifies this, stack, stack.cells
      ensures Kept()
      ensures !again ==> !signal.Broke? && !signal.Continued?
      ensures var (more, r) := IterateBody(program, fuel, front, cond, body, current, old(Now()));
        RoundFits(base, stack.Contents(), again, signal, Now(), more, r.Above(done))
      decreases fuel, 3, 0
    {
      ghost var b := Exec(program, fuel, false, body, current, Now());
      signal := ExecuteAbove(fuel, body, base, done);
      again, signal := AfterBody(fuel, signal, front, cond, base, done, b);
    }

    /** break ends a loop, continue goes on with the next round, and a test comes last or not at all. */
    method AfterBody(fuel: nat, ended: Signal, front: bool, cond: Expr,
                     ghost base: seq<Value>, ghost done: seq<Value>, ghost b: Result)
      returns (again: bool, signal: Signal)
      requires Valid() && BlockFits(base, stack.Contents(), ended, Now(), b.Above(done))
      modifies this, stack, stack.cells
      ensures Kept()
      ensures !again ==> !signal.Broke? && !signal.Continued?
      ensures var (more, r) := Evaluator.AfterBody(program, fuel, front, cond, current, b);
        RoundFits(base, stack.Contents(), again, signal, Now(), more, r.Above(done))
      decreases fuel, 2, 1
    {
      again, signal := false, ended;
      if signal.Broke? {
        signal := NextStep;
      } else if signal.Continued? {
        again := true;
      } else if signal.NextStep? {
        again := true;
        if !front {
          AboveTwice(Eval(program, fuel, cond, current, Now()), done, b.left);
          signal, again := TestAgain(fuel, cond, base, done + b.left);
        }
      }
    }

    /** A block within another statement, above what that has left behind. */
    method ExecuteAbove(fuel: nat, block: seq<Statement>, ghost base: seq<Value>, ghost done: seq<Value>)
      returns (signal: Signal)
      requires Valid() && stack.Contents() == base + done
      modifies this, stack, stack.cells
      ensures Kept()
      ensures BlockFits(base, stack.Contents(), signal, Now(),
                        Exec(program, fuel, false, block, current, old(Now())).Above(done))
      decreases fuel, 1, 1
    {
      ghost var r := Exec(program, fuel, false, block, current, Now());
      signal := ExecuteBlock(fuel, false, block);
      AboveFits(base, done, stack.Contents(), signal, Now(), r);
    }

    /** The test behind a body. */
    method TestAgain(fuel: nat, cond: Expr, ghost base: seq<Value>, ghost done: seq<Value>)
      returns (signal: Signal, again: bool)
      requires Valid() && stack.Contents() == base + done
      modifies this, stack, stack.cells
      ensures Kept()
      ensures var t := Eval(program, fuel, cond, current, old(Now()));
        RoundFits(base, stack.Contents(), again, signal, Now(), t.signal.NextStep? && Truth(t.value), t.Above(done))
      ensures !again ==> !signal.Broke? && !signal.Continued?
      decreases fuel, 2, 0
    {
      ghost var t := Eval(program, fuel, cond, current, Now());
      signal, again := ExecuteCondition(fuel, cond);
      OnTop(base, done, t.left);
    }

    method ExecuteTry(fuel: nat, body: seq<Statement>, catches: seq<Catch>, noException: OptionalBlock)
      returns (signal: Signal)
      requires Valid()
      modifies this, stack, stack.cells
      ensures Kept()
      ensures BlockFits(old(stack.Contents()), stack.Contents(), signal, Now(),
                        ExecTry(program, fuel, body, catches, noException, current, old(Now())))
      decreases fuel, 5, 0
    {
      ghost var base, b := stack.Contents(), Exec(program, fuel, false, body, current, Now());
      signal := ExecuteBlock(fuel, false, body);
      if signal.Thrown? {
        if exception == [] { signal := RaiseInternalError(); }
        signal := ExecuteCatches(fuel, catches);
      } else if signal.NextStep? && noException.Given? {
        ghost var r := Exec(program, fuel, false, noException.block, current, Now());
        signal := ExecuteBlock(fuel, false, noException.block);
        AboveFits(base, b.left, stack.Contents(), signal, Now(), r);
      }
    }

    method ExecuteCatches(fuel: nat, catches: seq<Catch>) returns (signal: Signal)
      requires Valid()
      modifies this, stack, stack.cells
      ensures Kept()
      ensures BlockFits(old(stack.Contents()), stack.Contents(), signal, Now(),
                        ExecCatches(program, fuel, catches, current, old(Now())))
      decreases fuel, 4, 3
    {
      signal := Thrown;
      ghost var base, all, done := stack.Contents(), ExecCatches(program, fuel, catches, current, Now()), [];
      AboveNothing(all);
      var i, more := 0, true;
      while i < |catches| && more
        invariant Kept() && i <= |catches|
        invariant more ==> signal == Thrown && stack.Contents() == base + done
        invariant more ==> ExecCatches(program, fuel, catches[i..], current, Now()).Above(done) == all
        invariant !more ==> BlockFits(base, stack.Contents(), signal, Now(), all)
      {
        signal, more, done := TryCatch(fuel, catches, i, base, done, all);
        i := i + 1;
      }
    }

    /** One clause takes the exception, or throws while asked, or leaves it to the clauses behind. */
    method TryCatch(fuel: nat, catches: seq<Catch>, i: nat,
                    ghost base: seq<Value>, ghost done: seq<Value>, ghost all: Result)
      returns (signal: Signal, more: bool, ghost done': seq<Value>)
      requires Valid() && i < |catches| && stack.Contents() == base + done
      requires ExecCatches(program, fuel, catches[i..], current, Now()).Above(done) == all
      modifies this, stack, stack.cells
      ensures Kept()
      ensures more ==> signal == Thrown && stack.Contents() == base + done'
      ensures more ==> ExecCatches(program, fuel, catches[i + 1..], current, Now()).Above(done') == all
      ensures !more ==> BlockFits(base, stack.Contents(), signal, Now(), all)
      decreases fuel, 4, 2
    {
      ghost var c := Matches(program, fuel, catches[i], current, Now());
      ExecCatchesStep(program, fuel, catches, i, current, Now(), done);
      var takes;
      signal, takes := AskCondition(fuel, catches[i]);
      OnTop(base, done, c.left);
      done', more := done + c.left, false;
      if !Stuck(signal) {
        if takes {
          signal := TakeException(fuel, catches[i], base, done');
        } else {
          signal, more := Thrown, true;
        }
      }
    }

    method TakeException(fuel: nat, clause: Catch, ghost base: seq<Value>, ghost done: seq<Value>)
      returns (signal: Signal)
      requires Valid() && stack.Contents() == base + done
      modifies this, stack, stack.cells
      ensures Kept()
      ensures BlockFits(base, stack.Contents(), signal, Now(),
                        Handle(program, fuel, clause, current, old(Now())).Above(done))
      decreases fuel, 4, 1
    {
      ghost var r := Handle(program, fuel, clause, current, Now());
      signal := HandleException(fuel, clause);
      AboveFits(base, done, stack.Contents(), signal, Now(), r);
    }

    /** Asks whether a catch clause takes the exception. */
    method AskCondition(fuel: nat, clause: Catch) returns (signal: Signal, takes: bool)
      requires Valid()
      modifies this, stack, stack.cells
      ensures Kept()
      ensures TestFits(old(stack.Contents()), stack.Contents(), signal, takes, Now(),
                       Matches(program, fuel, clause, current, old(Now())))
      decreases fuel, 4, 0
    {
      signal, takes := NextStep, true;
      if clause.cond != [] {
        ghost var base, r := stack.Contents(), Matches(program, fuel, clause, current, Now());
        signal := CallCondition(fuel, clause);
        takes := false;
        if signal.NextStep? {
          ghost var full := stack.Contents();
          var value := stack.Pop();
          Popped(base, r.left, r.value, full, stack.Contents(), value);
          takes := Truth(value);
        }
      }
    }

    method CallCondition(fuel: nat, clause: Catch) returns (signal: Signal)
      requires Valid() && clause.cond != []
      modifies this, stack, stack.cells
      ensures Kept()
      ensures ExprFits(old(stack.Contents()), stack.Contents(), signal, Now(),
                       Matches(program, fuel, clause, current, old(Now())))
      decreases fuel, 3, 1
    {
      ghost var base := stack.Contents();
      var condition := Method([Param(clause.name, [])], Single(clause.cond[0]));
      stack.Push(frames[current].this_);
      stack.Push(Exception(Now()));
      signal := CallMethod(fuel, condition, true, [current], base, [frames[current].this_, Exception(Now())]);
    }

    method HandleException(fuel: nat, clause: Catch) returns (signal: Signal)
      requires Valid()
      modifies this, stack, stack.cells
      ensures Kept()
      ensures BlockFits(old(stack.Contents()), stack.Contents(), signal, Now(),
                        Handle(program, fuel, clause, current, old(Now())))
      decreases fuel, 4, 0
    {
      ghost var base := stack.Contents();
      var thrown := Exception(Now());
      stack.Push(frames[current].this_);
      stack.Push(thrown);
      exception := [];
      signal := CallMethod(fuel, Method([Param(clause.name, [])], Code(clause.block)), false, [current],
                           base, [frames[current].this_, thrown]);
    }
  }
}
