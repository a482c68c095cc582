/** The expression compiler: it links nodes in place, re-hanging the right spine of the
    partial tree when a looser operator arrives. Each routine is proved against Grammar. */
module Parser {
  import opened Tokens
  import opened Precedence
  import opened Grammar
  import opened Seqs

  class Lexer {
    var input: seq<Token>

    constructor (ts: seq<Token>)
      ensures input == ts
    {
      input := ts;
    }

    function Value(): Token
      reads this
    {
      Current(input)
    }

    function NextValue(): Token
      reads this
    {
      Current(Advance(input))
    }

    method GetToken()
      modifies this
      ensures input == Advance(old(input))
    {
      if input != [] && !input[0].Eof? {
        input := input[1..];
      }
    }
  }

  datatype Kind = NumberKind | NameKind | WordKind | CallKind | ArrayKind | ChainKind | OperationKind

  /** A node of the tree under construction. */
  class Node {
    var kind: Kind
    var op: Mark
    var number: int
    var name: string
    var left: Node?
    var right: Node?
    var items: seq<Node>

    constructor (k: Kind)
      ensures kind == k && left == null && right == null && items == []
    {
      kind, op, number, name, left, right, items := k, AndAnd, 0, "", null, null, [];
    }
  }

  /** The growing array of pending operators; it starts with room for 16. */
  class Vector {
    var elements: array<Node?>
    var used: nat

    ghost predicate Valid()
      reads this
    {
      used <= elements.Length
    }

    constructor ()
      ensures Valid() && used == 0 && elements.Length == 16 && fresh(elements)
    {
      elements := new Node?[16](_ => null);
      used := 0;
    }

    method Push(x: Node)
      requires Valid()
      modifies this, elements
      ensures Valid() && used == old(used) + 1
      ensures elements[..used] == old(elements[..used]) + [x]
      ensures old(used) < old(elements.Length) ==> elements == old(elements)
      ensures elements == old(elements) || fresh(elements)
    {
      if used == elements.Length {
        var n, old_, u := elements.Length, elements, used;
        var bigger := new Node?[n + 16](i requires 0 <= i reads old_ => if i < old_.Length then old_[i] else null);
        elements := bigger;
        assert elements[..used] == old(elements[..used]);
      }
      elements[used] := x;
      used := used + 1;
    }
  }

  /** The tree that the nodes hanging from n spell, all of them in fp; None if there is no such tree. */
  ghost function TreeOf(n: Node, fp: set<Node>): Option<Tree>
    reads fp
    decreases fp, 0, 0
  {
    if n !in fp then None
    else
      match n.kind
      case NumberKind => Some(Number(n.number))
      case NameKind => Some(Name(n.name))
      case WordKind => Some(Tree.Word(n.name))
      case CallKind =>
        (match TreesOf(n.items, fp - {n}) case None => None case Some(ts) => Some(Call(n.name, ts)))
      case ArrayKind =>
        (match TreesOf(n.items, fp - {n}) case None => None case Some(ts) => Some(ArrayOf(ts)))
      case ChainKind =>
        (match TreesOf(n.items, fp - {n}) case None => None case Some(ts) => Some(Chain(ts)))
      case OperationKind =>
        if n.left == null || n.right == null then None
        else
          match TreeOf(n.left, fp - {n})
          case None => None
          case Some(l) =>
            match TreeOf(n.right, fp - {n})
            case None => None
            case Some(r) => Some(Operation(n.op, l, r))
  }

  ghost function TreesOf(ns: seq<Node>, fp: set<Node>): Option<seq<Tree>>
    reads fp
    decreases fp, 1, |ns|
  {
    if ns == [] then Some([])
    else
      match TreesOf(ns[..|ns| - 1], fp)
      case None => None
      case Some(ts) =>
        match TreeOf(ns[|ns| - 1], fp)
        case None => None
        case Some(t) => Some(ts + [t])
  }

  lemma {:induction false} Widen(n: Node, fp: set<Node>, wider: set<Node>)
    requires TreeOf(n, fp).Some? && fp <= wider
    ensures TreeOf(n, wider) == TreeOf(n, fp)
    decreases fp, 0, 0
  {
    match n.kind
    case CallKind => WidenAll(n.items, fp - {n}, wider - {n});
    case ArrayKind => WidenAll(n.items, fp - {n}, wider - {n});
    case ChainKind => WidenAll(n.items, fp - {n}, wider - {n});
    case OperationKind =>
      Widen(n.left, fp - {n}, wider - {n});
      Widen(n.right, fp - {n}, wider - {n});
    case _ =>
  }

  lemma {:induction false} WidenAll(ns: seq<Node>, fp: set<Node>, wider: set<Node>)
    requires TreesOf(ns, fp).Some? && fp <= wider
    ensures TreesOf(ns, wider) == TreesOf(ns, fp)
    decreases fp, 1, |ns|
  {
    if ns != [] {
      WidenAll(ns[..|ns| - 1], fp, wider);
      Widen(ns[|ns| - 1], fp, wider);
    }
  }

  // ----- the spine in the heap -----

  function Members(s: seq<Node>): set<Node> {
    set n | n in s
  }

  /** The pending operators s are exactly the right spine: each holds its finished left operand,
      each points at the next, and only the last right child is still open. */
  ghost predicate SpineIn(s: seq<Node>, spine: seq<Entry<Tree>>, all: set<Node>)
    reads all
  {
    && |s| == |spine|
    && forall i :: 0 <= i < |s| ==>
         && s[i] in all && PendingIn(s[i], spine[i], all - Members(s))
         && (i + 1 < |s| ==> s[i].right == s[i + 1])
         && forall j :: i < j < |s| ==> s[i] != s[j]
  }

  ghost predicate PendingIn(n: Node, e: Entry<Tree>, fp: set<Node>)
    reads n, fp
  {
    n.kind == OperationKind && n.op == e.op && n.left != null && TreeOf(n.left, fp) == Some(Erase(e.left))
  }

  /** Once the open child is supplied, entry k roots the closed tree of the entries from k on. */
  lemma {:induction false} CloseInHeap(s: seq<Node>, spine: seq<Entry<Tree>>, all: set<Node>,
                                       k: nat, current: Node, t: Tree, fp: set<Node>)
    requires k < |s| && SpineIn(s, spine, all)
    requires s[|s| - 1].right == current && TreeOf(current, fp) == Some(t) && fp !! all
    ensures TreeOf(s[k], all + fp - Members(s[..k])) == Some(Erase(Close(spine[k..], Leaf(t))))
    decreases |s| - k
  {
    var here := all + fp - Members(s[..k]);
    var below := all + fp - Members(s[..k + 1]);
    assert below == here - {s[k]};
    assert all - Members(s) <= below;
    Widen(s[k].left, all - Members(s), below);
    assert spine[k..][0] == spine[k] && spine[k..][1..] == spine[k + 1..];
    if k + 1 < |s| {
      CloseInHeap(s, spine, all, k + 1, current, t, fp);
    } else {
      assert fp <= below;
      Widen(current, fp, below);
    }
  }

  lemma SpinePrefix(s: seq<Node>, spine: seq<Entry<Tree>>, all: set<Node>, k: nat, fp: set<Node>)
    requires k <= |s| && SpineIn(s, spine, all)
    ensures SpineIn(s[..k], spine[..k], all + fp)
  {
    forall i | 0 <= i < k ensures PendingIn(s[i], spine[i], all + fp - Members(s[..k])) {
      Widen(s[i].left, all - Members(s), all + fp - Members(s[..k]));
    }
  }

  lemma SpineGrows(s: seq<Node>, spine: seq<Entry<Tree>>, all: set<Node>, n: Node, e: Entry<Tree>)
    requires SpineIn(s, spine, all) && n !in all
    requires PendingIn(n, e, all - Members(s))
    requires s != [] ==> s[|s| - 1].right == n
    ensures SpineIn(s + [n], spine + [e], all + {n})
  {
    assert all + {n} - Members(s + [n]) == all - Members(s);
  }

  /** The search from the end for a pending operator that binds more loosely; -1 if there is none. */
  method FindLooser(stack: Vector, p: nat, ghost s: seq<Node>, ghost spine: seq<Entry<Tree>>) returns (index: int)
    requires stack.Valid() && stack.elements[..stack.used] == s && |s| == |spine|
    requires forall i :: 0 <= i < |s| ==> s[i].op == spine[i].op
    ensures index == Kept(spine, p) - 1
  {
    index := stack.used - 1;
    while index >= 0
      invariant -1 <= index < stack.used
      invariant forall i :: index < i < |spine| ==> Priority(spine[i].op) >= p
    {
      var pExpr := stack.elements[index];
      assert pExpr == stack.elements[..stack.used][index] == s[index];
      if Priority(pExpr.op) < p {
        break;
      }
      index := index - 1;
    }
  }

  /** Supplies the open child of the last pending operator. */
  method CloseLast(last: Node, current: Node, ghost k: nat,
                   ghost s: seq<Node>, ghost spine: seq<Entry<Tree>>, ghost all: set<Node>, ghost t: Tree,
                   ghost fp: set<Node>)
    requires SpineIn(s, spine, all) && k <= |s| && 0 < |s| && last == s[|s| - 1]
    requires TreeOf(current, fp) == Some(t) && fp !! all
    modifies last`right
    ensures SpineIn(s, spine, all) && last.right == current
    ensures TreeOf(if k < |s| then s[k] else current, all + fp - Members(s[..k])) ==
      Some(Erase(Close(spine[k..], Leaf(t))))
  {
    last.right := current;
    if k < |s| {
      CloseInHeap(s, spine, all, k, current, t, fp);
    } else {
      assert fp <= all + fp - Members(s[..k]);
      Widen(current, fp, all + fp - Members(s[..k]));
    }
  }

  /** The tree that a new operator behind entry index takes as its left operand. */
  method Detach(stack: Vector, current: Node, index: int,
                ghost s: seq<Node>, ghost spine: seq<Entry<Tree>>, ghost all: set<Node>, ghost t: Tree,
                ghost fp: set<Node>)
    returns (left: Node)
    requires stack.Valid() && stack.elements[..stack.used] == s
    requires SpineIn(s, spine, all) && TreeOf(current, fp) == Some(t) && fp !! all && -1 <= index < |s|
    modifies Members(s)`right
    ensures SpineIn(s[..index + 1], spine[..index + 1], all + fp)
    ensures TreeOf(left, all + fp - Members(s[..index + 1])) == Some(Erase(Close(spine[index + 1..], Leaf(t))))
  {
    ghost var k: nat := index + 1;
    if stack.used == 0 {
      left := current;
      Widen(current, fp, all + fp - Members(s[..k]));
    } else {
      var last := stack.elements[stack.used - 1];
      assert last == stack.elements[..stack.used][stack.used - 1];
      CloseLast(last, current, k, s, spine, all, t, fp);
      if index == -1 {
        left := stack.elements[0];
        assert left == stack.elements[..stack.used][0];
      } else {
        var pExpr := stack.elements[index];
        assert pExpr == stack.elements[..stack.used][index];
        left := pExpr.right;
      }
    }
    SpinePrefix(s, spine, all, k, fp);
  }

  method CreateOperation(op: Mark) returns (n: Node)
    ensures fresh(n) && n.kind == OperationKind && n.op == op && n.left == null && n.right == null
  {
    n := new Node(OperationKind);
    n.op := op;
  }

  /** A new operator over left becomes the open child of the last entry. */
  method Hang(left: Node, op: Mark, parent: Node?, ghost shape: Shape<Tree>,
              ghost s: seq<Node>, ghost spine: seq<Entry<Tree>>, ghost all: set<Node>)
    returns (pOperator: Node)
    requires SpineIn(s, spine, all) && TreeOf(left, all - Members(s)) == Some(Erase(shape))
    requires parent == if s == [] then null else s[|s| - 1]
    modifies Members(s)`right
    ensures fresh(pOperator) && SpineIn(s + [pOperator], spine + [Entry(shape, op)], all + {pOperator})
  {
    pOperator := CreateOperation(op);
    pOperator.left := left;
    if parent != null {
      parent.right := pOperator;
    }
    SpineGrows(s, spine, all, pOperator, Entry(shape, op));
  }

  /** Cuts the stack behind entry index and hangs a new operator there. */
  method Rehang(stack: Vector, index: int, left: Node, op: Mark, ghost shape: Shape<Tree>,
                ghost s: seq<Node>, ghost spine: seq<Entry<Tree>>, ghost all: set<Node>)
    returns (pOperator: Node)
    requires stack.Valid() && stack.used < stack.elements.Length && -1 <= index < stack.used
    requires stack.elements[..index + 1] == s && SpineIn(s, spine, all)
    requires TreeOf(left, all - Members(s)) == Some(Erase(shape))
    modifies stack, stack.elements, Members(s)`right
    ensures stack.Valid() && stack.elements == old(stack.elements)
    ensures stack.elements[..stack.used] == s + [pOperator] && fresh(pOperator)
    ensures SpineIn(s + [pOperator], spine + [Entry(shape, op)], all + {pOperator})
  {
    var pExpr := null;
    if index >= 0 {
      pExpr := stack.elements[index];
      assert pExpr == stack.elements[..index + 1][index] == s[index];
    }
    pOperator := Hang(left, op, pExpr, shape, s, spine, all);
    stack.used := index + 1;
    stack.Push(pOperator);
  }

  /** Everything the loop of CompileExpression keeps about the stack; the 16 slots it started
      with are never outgrown. */
  ghost predicate Pending(stack: Vector, s: seq<Node>, spine: seq<Entry<Tree>>, all: set<Node>)
    reads stack, stack.elements, all
  {
    && stack.Valid() && stack.elements.Length == 16 && stack.elements[..stack.used] == s
    && SpineIn(s, spine, all) && SpineOk(spine)
  }

  /** Where the new operator goes, and what it takes over: the part of the spine that binds at
      least as tightly. */
  method Cut(stack: Vector, current: Node, op: Mark,
             ghost s: seq<Node>, ghost spine: seq<Entry<Tree>>, ghost all: set<Node>, ghost t: Tree,
             ghost fp: set<Node>)
    returns (index: int, left: Node)
    requires Pending(stack, s, spine, all) && TreeOf(current, fp) == Some(t) && fp !! all
    modifies all
    ensures index == Kept(spine, Priority(op)) - 1 && stack.elements[..index + 1] == s[..index + 1]
    ensures SpineIn(s[..index + 1], spine[..index + 1], all + fp)
    ensures TreeOf(left, all + fp - Members(s[..index + 1])) == Some(Erase(Close(spine[index + 1..], Leaf(t))))
  {
    index := FindLooser(stack, Priority(op), s, spine);
    assert stack.elements[..index + 1] == stack.elements[..stack.used][..index + 1];
    left := Detach(stack, current, index, s, spine, all, t, fp);
  }

  /** One turn of the loop of the compile routine: the operand current, then the operator op. */
  method HangOperator(stack: Vector, current: Node, op: Mark,
                      ghost s: seq<Node>, ghost spine: seq<Entry<Tree>>, ghost all: set<Node>, ghost t: Tree,
                      ghost fp: set<Node>)
    returns (ghost s': seq<Node>, ghost all': set<Node>)
    requires Pending(stack, s, spine, all) && TreeOf(current, fp) == Some(t) && fp !! all && IsOperator(op)
    modifies stack, stack.elements, all
    ensures stack.elements == old(stack.elements) && fresh(all' - all - fp)
    ensures Pending(stack, s', Grow(spine, t, op), all')
  {
    SpineShort(spine);
    GrowIsOk(spine, t, op);
    var index, left := Cut(stack, current, op, s, spine, all, t, fp);
    ghost var k: nat := index + 1;
    var pOperator := Rehang(stack, index, left, op, Close(spine[k..], Leaf(t)), s[..k], spine[..k], all + fp);
    s', all' := s[..k] + [pOperator], all + fp + {pOperator};
  }

  // ----- the compile routines -----

  /** What is still to be read continues what the spine has consumed. */
  ghost predicate Continues(ts: seq<Token>, rest: seq<Token>, p: Purpose, spine: seq<Entry<Tree>>) {
    Flat(ts, p) == Resume(spine, Flat(rest, p))
  }

  function Resume(spine: seq<Entry<Tree>>, r: Parsed<(seq<Tree>, seq<Mark>)>): Parsed<(seq<Tree>, seq<Mark>)> {
    match r
    case Fail => Fail
    case Ok((os, ops), rest) => Ok((SpineOperands(spine) + os, SpineOperators(spine) + ops), rest)
  }

  lemma NothingRead(ts: seq<Token>, p: Purpose)
    ensures Continues(ts, ts, p, [])
  {
    var r := Flat(ts, p);
    if r.Ok? {
      assert [] + r.value.0 == r.value.0 && [] + r.value.1 == r.value.1;
    }
  }

  lemma ResumeGrown(spine: seq<Entry<Tree>>, t: Tree, op: Mark, r: Parsed<(seq<Tree>, seq<Mark>)>)
    requires SpineOk(spine) && IsOperator(op)
    ensures Resume(Grow(spine, t, op), r) ==
      Resume(spine, match r case Fail => Fail case Ok((os, ops), rest) => Ok(([t] + os, [op] + ops), rest))
  {
    GrowTraversal(spine, t, op);
    if r.Ok? {
      Assoc(SpineOperands(spine), [t], r.value.0);
      Assoc(SpineOperators(spine), [op], r.value.1);
    }
  }

  lemma FlatGoesOn(rest: seq<Token>, p: Purpose, t: Tree, after: seq<Token>)
    requires Operand(rest) == Ok(t, after) && !Ends(p, after)
    requires IsInfix(Current(after)) && Current(Advance(after)) != Eof
    ensures Flat(rest, p) ==
      match Flat(Advance(after), p)
      case Fail => Fail
      case Ok((os, ops), rest') => Ok(([t] + os, [Current(after).mark] + ops), rest')
  {
  }

  lemma OperatorRead(ts: seq<Token>, rest: seq<Token>, p: Purpose, spine: seq<Entry<Tree>>, t: Tree, after: seq<Token>)
    requires Continues(ts, rest, p, spine) && SpineOk(spine)
    requires Operand(rest) == Ok(t, after) && !Ends(p, after)
    requires IsInfix(Current(after)) && Current(Advance(after)) != Eof
    ensures SpineOk(Grow(spine, t, Current(after).mark))
    ensures Continues(ts, Advance(after), p, Grow(spine, t, Current(after).mark))
  {
    GrowIsOk(spine, t, Current(after).mark);
    FlatGoesOn(rest, p, t, after);
    ResumeGrown(spine, t, Current(after).mark, Flat(Advance(after), p));
  }

  lemma FlatEnds(rest: seq<Token>, p: Purpose, t: Tree, after: seq<Token>)
    requires Operand(rest) == Ok(t, after) && Ends(p, after)
    ensures Flat(rest, p) == Ok(([t], []), after)
  {
    assert [t] + [] == [t];
  }

  lemma ClosedIsBuilt(spine: seq<Entry<Tree>>, t: Tree)
    requires SpineOk(spine)
    ensures |SpineOperands(spine)| == |SpineOperators(spine)|
    ensures Close(spine, Leaf(t)) == Build(SpineOperands(spine) + [t], SpineOperators(spine))
  {
    CloseIsCanonical(spine, t);
    CloseTraversal(spine, t);
    BuildIsTheCanonicalTree(SpineOperands(spine) + [t], SpineOperators(spine), Close(spine, Leaf(t)));
  }

  lemma EndRead(ts: seq<Token>, rest: seq<Token>, p: Purpose, spine: seq<Entry<Tree>>, t: Tree, after: seq<Token>)
    requires Continues(ts, rest, p, spine) && SpineOk(spine)
    requires Operand(rest) == Ok(t, after) && Ends(p, after)
    ensures Expression(ts, p) == Ok(Erase(Close(spine, Leaf(t))), after)
  {
    FlatEnds(rest, p, t, after);
    ClosedIsBuilt(spine, t);
    assert SpineOperators(spine) + [] == SpineOperators(spine);
  }

  lemma FailRead(ts: seq<Token>, rest: seq<Token>, p: Purpose, spine: seq<Entry<Tree>>)
    requires Continues(ts, rest, p, spine) && Flat(rest, p).Fail?
    ensures Expression(ts, p).Fail?
  {
  }

  /** The result of a compile routine: null exactly when the grammar fails, else a linked tree
      of new nodes that spells what the grammar says, with the lexer just behind it. */
  ghost predicate Matches(r: Parsed<Tree>, result: Node?, fp: set<Node>, rest: seq<Token>)
    reads fp
  {
    if r.Fail? then result == null else result != null && TreeOf(result, fp) == Some(r.value) && rest == r.rest
  }

  method CompileExpression(lexer: Lexer, p: Purpose) returns (result: Node?, ghost fp: set<Node>)
    modifies lexer
    ensures fresh(fp) && |lexer.input| <= |old(lexer.input)|
    ensures Matches(Expression(old(lexer.input), p), result, fp, lexer.input)
    decreases |lexer.input|, 5
  {
    var stack := new Vector();
    ghost var ts, s, spine := lexer.input, [], [];
    result, fp := null, {};
    NothingRead(ts, p);
    var more := true;
    while more
      invariant fresh(stack) && fresh(stack.elements) && fresh(fp) && |lexer.input| <= |ts|
      invariant more ==> Pending(stack, s, spine, fp) && Continues(ts, lexer.input, p, spine)
      invariant !more ==> Matches(Expression(ts, p), result, fp, lexer.input)
      decreases more, |lexer.input|
    {
      ghost var before := lexer.input;
      var current, cfp := CompileSymbol(lexer);
      if current == null {
        FailRead(ts, before, p, spine);
        return null, {};
      }
      more, result, s, spine, fp := AfterOperand(lexer, p, stack, current, ts, before, s, spine, fp, cfp);
    }
  }

  /** What the loop does with an operand: it ends the expression, or an operator follows. */
  method AfterOperand(lexer: Lexer, p: Purpose, stack: Vector, current: Node,
                      ghost ts: seq<Token>, ghost before: seq<Token>,
                      ghost s: seq<Node>, ghost spine: seq<Entry<Tree>>, ghost all: set<Node>, ghost cfp: set<Node>)
    returns (more: bool, result: Node?, ghost s': seq<Node>, ghost spine': seq<Entry<Tree>>, ghost all': set<Node>)
    requires Pending(stack, s, spine, all) && cfp !! all && Continues(ts, before, p, spine)
    requires Operand(before).Ok? && TreeOf(current, cfp) == Some(Operand(before).value)
      && Operand(before).rest == lexer.input
    modifies lexer, stack, stack.elements, all
    ensures fresh(all' - all - cfp) && stack.elements == old(stack.elements) && |lexer.input| <= |old(lexer.input)|
    ensures more ==> Pending(stack, s', spine', all') && Continues(ts, lexer.input, p, spine')
    ensures !more ==> Matches(Expression(ts, p), result, all', lexer.input)
  {
    ghost var t, after := Operand(before).value, lexer.input;
    more, result, s', spine', all' := false, null, s, spine, all;
    if Ends(p, lexer.input) {
      EndRead(ts, before, p, spine, t, after);
      result, all' := Finish(stack, current, s, spine, all, t, cfp);
    } else {
      more, s', all' := TakeOperator(lexer, stack, current, s, spine, all, t, cfp);
      if more {
        OperatorRead(ts, before, p, spine, t, after);
        spine' := Grow(spine, t, Current(after).mark);
      } else {
        FailRead(ts, before, p, spine);
      }
    }
  }

  /** The operator after an operand; fails when there is none or nothing follows it. */
  method TakeOperator(lexer: Lexer, stack: Vector, current: Node,
                      ghost s: seq<Node>, ghost spine: seq<Entry<Tree>>, ghost all: set<Node>, ghost t: Tree,
                      ghost cfp: set<Node>)
    returns (more: bool, ghost s': seq<Node>, ghost all': set<Node>)
    requires Pending(stack, s, spine, all) && TreeOf(current, cfp) == Some(t) && cfp !! all
    modifies lexer, stack, stack.elements, all
    ensures more <==> IsInfix(Current(old(lexer.input))) && Current(Advance(old(lexer.input))) != Eof
    ensures more ==>
      && lexer.input == Advance(old(lexer.input))
      && Pending(stack, s', Grow(spine, t, Current(old(lexer.input)).mark), all')
    ensures fresh(all' - all - cfp) && stack.elements == old(stack.elements) && |lexer.input| <= |old(lexer.input)|
  {
    var token := lexer.Value();
    more, s', all' := false, s, all;
    if IsInfix(token) {
      s', all' := HangOperator(stack, current, token.mark, s, spine, all, t, cfp);
      lexer.GetToken();
      more := lexer.Value() != Eof;
    }
  }

  /** The last operand fills the open child; the first pending operator is the root. */
  method Finish(stack: Vector, current: Node,
                ghost s: seq<Node>, ghost spine: seq<Entry<Tree>>, ghost all: set<Node>, ghost t: Tree,
                ghost cfp: set<Node>)
    returns (result: Node, ghost fp: set<Node>)
    requires Pending(stack, s, spine, all) && TreeOf(current, cfp) == Some(t) && cfp !! all
    modifies all
    ensures fp == all + cfp && TreeOf(result, fp) == Some(Erase(Close(spine, Leaf(t))))
  {
    fp := all + cfp;
    if stack.used != 0 {
      result := stack.elements[0];
      var last := stack.elements[stack.used - 1];
      assert result == stack.elements[..stack.used][0] && last == stack.elements[..stack.used][stack.used - 1];
      CloseLast(last, current, 0, s, spine, all, t, cfp);
      assert spine[0..] == spine && all + cfp - Members(s[..0]) == fp;
    } else {
      result := current;
      Widen(current, cfp, fp);
    }
  }

  /** The chain of symbols before the one at hand, if there is one. */
  ghost predicate ChainIn(top: Node?, chain: Option<seq<Tree>>, fp: set<Node>)
    reads fp
  {
    if top == null then chain == None else chain.Some? && TreeOf(top, fp) == Some(Chain(chain.value))
  }

  function Whole(t: Tree, chain: Option<seq<Tree>>): Tree {
    if chain.Some? then Chain(chain.value + [t]) else t
  }

  /** Appends a symbol to a chain; with no chain the symbol stands alone. */
  method PushSymbol(top: Node?, current: Node, ghost t: Tree, ghost cfp: set<Node>,
                    ghost chain: Option<seq<Tree>>, ghost fp: set<Node>)
    returns (result: Node)
    requires TreeOf(current, cfp) == Some(t) && ChainIn(top, chain, fp) && cfp !! fp
    modifies fp
    ensures TreeOf(result, fp + cfp) == Some(Whole(t, chain))
    ensures result == if top != null then top else current
  {
    if top != null {
      result := top;
      WidenAll(top.items, fp - {top}, fp + cfp - {top});
      Widen(current, cfp, fp + cfp - {top});
      top.items := top.items + [current];
      assert TreesOf(top.items, fp + cfp - {top}) == Some(chain.value + [t]);
    } else {
      result := current;
      Widen(current, cfp, fp + cfp);
    }
  }

  function Longer(t: Tree, chain: Option<seq<Tree>>): seq<Tree> {
    (if chain.Some? then chain.value else []) + [t]
  }

  /** What Links makes of a symbol t whose index brackets have been read. */
  function Linked(ts: seq<Token>, t: Tree, chain: Option<seq<Tree>>, signed: bool): Parsed<Tree> {
    if Current(ts) != Token.Mark(Dot) then Ok(Whole(t, chain), ts)
    else if Current(Advance(ts)) == Eof then Ok(Chain(Longer(t, chain)), Advance(ts))
    else Links(Advance(ts), Some(Longer(t, chain)), signed)
  }

  lemma LinksGoOn(ts: seq<Token>, chain: Option<seq<Tree>>, signed: bool)
    ensures Links(ts, chain, signed) ==
      match Primary(ts, chain.Some?, signed)
      case Fail => Fail
      case Ok((t, sign), rest) => Indexed(rest, t, chain, sign)
  {
  }

  /** What Links makes of a symbol t whose index brackets come next. */
  function Indexed(ts: seq<Token>, t: Tree, chain: Option<seq<Tree>>, signed: bool): Parsed<Tree> {
    match Indexes(ts, t, chain)
    case Fail => Fail
    case Ok((t', chain'), rest) => Linked(rest, t', chain', signed)
  }

  method CompileSymbol(lexer: Lexer) returns (result: Node?, ghost fp: set<Node>)
    modifies lexer
    ensures fresh(fp) && |lexer.input| <= |old(lexer.input)|
    ensures Matches(Operand(old(lexer.input)), result, fp, lexer.input)
    decreases |lexer.input|, 4, 1
  {
    var more, multipleTop: Node?, signed := true, null, false;
    ghost var ts, chain := lexer.input, None;
    fp := {};
    while more
      invariant fresh(fp) && |lexer.input| <= |ts|
      invariant more ==> ChainIn(multipleTop, chain, fp) && Operand(ts) == Links(lexer.input, chain, signed)
      invariant !more ==> Matches(Operand(ts), multipleTop, fp, lexer.input)
      decreases more, |lexer.input|
    {
      more, multipleTop, signed, chain, fp := CompileLink(lexer, multipleTop, signed, chain, fp);
    }
    result := multipleTop;
  }

  /** One symbol with its index brackets, linked to the chain before it. */
  method CompileLink(lexer: Lexer, top: Node?, signed: bool, ghost chain: Option<seq<Tree>>, ghost mfp: set<Node>)
    returns (more: bool, result: Node?, signed': bool, ghost chain': Option<seq<Tree>>, ghost fp: set<Node>)
    requires ChainIn(top, chain, mfp)
    modifies lexer, mfp
    ensures |lexer.input| <= |old(lexer.input)| && fresh(fp - mfp)
    ensures more ==>
      && |lexer.input| < |old(lexer.input)| && ChainIn(result, chain', fp)
      && Links(old(lexer.input), chain, signed) == Links(lexer.input, chain', signed')
    ensures !more ==> Matches(Links(old(lexer.input), chain, signed), result, fp, lexer.input)
    decreases |lexer.input|, 4, 0
  {
    ghost var ts := lexer.input;
    LinksGoOn(ts, chain, signed);
    more, result, chain', fp := false, null, None, {};
    var current;
    ghost var cfp;
    current, signed', cfp := CompilePrimary(lexer, top != null, signed);
    if current != null {
      more, result, chain', fp :=
        LinkIndexed(lexer, top, current, signed', Primary(ts, chain.Some?, signed).value.0, cfp, chain, mfp);
    }
  }

  /** The index brackets behind a symbol, and what links it. */
  method LinkIndexed(lexer: Lexer, top: Node?, current: Node, ghost signed: bool, ghost t: Tree, ghost cfp: set<Node>,
                     ghost chain: Option<seq<Tree>>, ghost mfp: set<Node>)
    returns (more: bool, result: Node?, ghost chain': Option<seq<Tree>>, ghost fp: set<Node>)
    requires TreeOf(current, cfp) == Some(t) && ChainIn(top, chain, mfp) && cfp !! mfp
    modifies lexer, mfp
    ensures fresh(fp - cfp - mfp) && |lexer.input| <= |old(lexer.input)|
    ensures more ==>
      && |lexer.input| < |old(lexer.input)| && ChainIn(result, chain', fp)
      && Indexed(old(lexer.input), t, chain, signed) == Links(lexer.input, chain', signed)
    ensures !more ==> Matches(Indexed(old(lexer.input), t, chain, signed), result, fp, lexer.input)
    decreases |lexer.input|, 3, 1
  {
    more, result, chain', fp := false, null, None, {};
    var current', top';
    ghost var t', cfp', mfp';
    current', top', t', cfp', chain', mfp' := CompileIndexes(lexer, current, top, t, cfp, chain, mfp);
    if current' != null {
      more, result, chain', fp := LinkSymbol(lexer, top', current', signed, t', cfp', chain', mfp');
    }
  }

  /** A dot opens a chain if there is none yet; an open chain takes the symbol. */
  method LinkSymbol(lexer: Lexer, top: Node?, current: Node, ghost signed: bool, ghost t: Tree, ghost cfp: set<Node>,
                    ghost chain: Option<seq<Tree>>, ghost mfp: set<Node>)
    returns (more: bool, result: Node, ghost chain': Option<seq<Tree>>, ghost fp: set<Node>)
    requires TreeOf(current, cfp) == Some(t) && ChainIn(top, chain, mfp) && cfp !! mfp
    modifies lexer, mfp
    ensures fresh(fp - cfp - mfp) && |lexer.input| <= |old(lexer.input)|
    ensures more ==>
      && |lexer.input| < |old(lexer.input)| && ChainIn(result, chain', fp)
      && Linked(old(lexer.input), t, chain, signed) == Links(lexer.input, chain', signed)
    ensures !more ==> Matches(Linked(old(lexer.input), t, chain, signed), result, fp, lexer.input)
  {
    if lexer.Value() != Token.Mark(Dot) {
      result := PushSymbol(top, current, t, cfp, chain, mfp);
      more, chain', fp := false, None, mfp + cfp;
    } else {
      if top == null {
        var newTop := new Node(ChainKind);
        result := PushSymbol(newTop, current, t, cfp, Some([]), {newTop});
        fp := {newTop} + cfp;
      } else {
        result := PushSymbol(top, current, t, cfp, chain, mfp);
        fp := mfp + cfp;
      }
      chain' := Some(Longer(t, chain));
      lexer.GetToken();
      more := lexer.Value() != Eof;
    }
  }

  method CompilePrimary(lexer: Lexer, inChain: bool, signed: bool)
    returns (result: Node?, signed': bool, ghost fp: set<Node>)
    modifies lexer
    ensures fresh(fp) && |lexer.input| <= |old(lexer.input)|
    ensures var r := Primary(old(lexer.input), inChain, signed);
      if r.Fail? then result == null
      else result != null && TreeOf(result, fp) == Some(r.value.0) && signed' == r.value.1 && lexer.input == r.rest
    decreases |lexer.input|, 3
  {
    result, signed', fp := null, signed, {};
    if lexer.Value() == Token.Mark(Paren) {
      lexer.GetToken();
      result, fp := CompileExpression(lexer, Inner);
      if result != null { lexer.GetToken(); }
    } else {
      if lexer.Value() == Token.Mark(Plus) || lexer.Value() == Token.Mark(Minus) {
        signed' := true;
        lexer.GetToken();
      }
      if !signed' || lexer.Value().Int? {
        result, fp := CompilePlain(lexer, inChain, signed');
      }
    }
  }

  method CompilePlain(lexer: Lexer, inChain: bool, signed: bool) returns (result: Node?, ghost fp: set<Node>)
    modifies lexer
    ensures fresh(fp) && |lexer.input| <= |old(lexer.input)|
    ensures var r := Plain(old(lexer.input), inChain, signed);
      if r.Fail? then result == null
      else result != null && TreeOf(result, fp) == Some(r.value.0) && signed == r.value.1 && lexer.input == r.rest
    decreases |lexer.input|, 2
  {
    result, fp := null, {};
    match lexer.Value() {
      case Int(n) =>
        if !inChain {
          var node := new Node(NumberKind);
          node.number := if signed then -(n as int) else n;
          result, fp := node, {node};
          lexer.GetToken();
        }
      case Word(id) =>
        result, fp := CreateNamed(WordKind, id);
        lexer.GetToken();
      case Symbol(name) =>
        if lexer.NextValue() == Token.Mark(Paren) {
          result, fp := CompileMethodCall(lexer, name);
        } else {
          result, fp := CreateNamed(NameKind, name);
          lexer.GetToken();
        }
      case Mark(Bracket) =>
        result, fp := CompileArray(lexer);
      case _ =>
    }
  }

  method CreateNamed(kind: Kind, name: string) returns (node: Node, ghost fp: set<Node>)
    ensures fp == {node} && fresh(node) && node.kind == kind && node.name == name && node.items == []
  {
    node := new Node(kind);
    node.name := name;
    fp := {node};
  }

  /** Gives a new node its arguments. */
  method Fill(node: Node, items: seq<Node>, ghost ts: seq<Tree>, ghost afp: set<Node>) returns (ghost fp: set<Node>)
    requires TreesOf(items, afp) == Some(ts) && node !in afp
    modifies node`items
    ensures fp == {node} + afp
    ensures node.kind == CallKind ==> TreeOf(node, fp) == Some(Call(node.name, ts))
    ensures node.kind == ArrayKind ==> TreeOf(node, fp) == Some(ArrayOf(ts))
  {
    node.items := items;
    fp := {node} + afp;
    WidenAll(items, afp, fp - {node});
  }

  method CompileMethodCall(lexer: Lexer, name: string) returns (result: Node?, ghost fp: set<Node>)
    requires lexer.Value() == Symbol(name) && lexer.NextValue() == Token.Mark(Paren)
    modifies lexer
    ensures fresh(fp) && |lexer.input| <= |old(lexer.input)|
    ensures var r := List(Advance(Advance(old(lexer.input))), EndParen, Argument);
      if r.Fail? || Current(r.rest) != Token.Mark(EndParen) then result == null
      else result != null && TreeOf(result, fp) == Some(Call(name, r.value)) && lexer.input == Advance(r.rest)
    decreases |lexer.input|, 1
  {
    var node;
    node, fp := CreateNamed(CallKind, name);
    result, fp := null, {};
    lexer.GetToken();
    ghost var r := List(Advance(lexer.input), EndParen, Argument);
    var ok, args, afp := CompileArguments(lexer, EndParen, Argument);
    if ok && lexer.Value() == Token.Mark(EndParen) {
      result := node;
      fp := Fill(node, args, r.value, afp);
      lexer.GetToken();
    }
  }

  method CompileArray(lexer: Lexer) returns (result: Node?, ghost fp: set<Node>)
    requires lexer.Value() == Token.Mark(Bracket)
    modifies lexer
    ensures fresh(fp) && |lexer.input| <= |old(lexer.input)|
    ensures var r := List(Advance(old(lexer.input)), EndBracket, Element);
      if r.Fail? || Current(r.rest) != Token.Mark(EndBracket) then result == null
      else result != null && TreeOf(result, fp) == Some(ArrayOf(r.value)) && lexer.input == Advance(r.rest)
    decreases |lexer.input|, 1
  {
    var node;
    node, fp := CreateNamed(ArrayKind, "");
    var ok, items, afp := CompileArguments(lexer, EndBracket, Element);
    if !ok || lexer.Value() != Token.Mark(EndBracket) {
      return null, {};
    }
    fp := Fill(node, items, List(Advance(old(lexer.input)), EndBracket, Element).value, afp);
    result := node;
    lexer.GetToken();
  }

  function Behind(done: seq<Tree>, r: Parsed<seq<Tree>>): Parsed<seq<Tree>> {
    match r
    case Fail => Fail
    case Ok(ts, rest) => Ok(done + ts, rest)
  }

  function AfterComma(ts: seq<Token>): seq<Token> {
    if Current(ts) == Token.Mark(Comma) then Advance(ts) else ts
  }

  /** What List makes of the arguments done: more may follow, or the list ends here. */
  function Remaining(done: seq<Tree>, ts: seq<Token>, more: bool, close: Mark, p: Purpose): Parsed<seq<Tree>> {
    if more then Behind(done, List(ts, close, p)) else Ok(done, ts)
  }

  function AfterArgument(done: seq<Tree>, r: Parsed<Tree>, close: Mark, p: Purpose): Parsed<seq<Tree>> {
    match r
    case Fail => Fail
    case Ok(t, rest) => Remaining(done + [t], AfterComma(rest), Current(AfterComma(rest)) != Eof, close, p)
  }

  lemma ListUnfolds(ts: seq<Token>, close: Mark, p: Purpose)
    requires Current(ts) != Token.Mark(close)
    ensures List(ts, close, p) == AfterArgument([], Expression(ts, p), close, p)
  {
    var e := Expression(ts, p);
    if e.Ok? {
      assert [] + [e.value] == [e.value];
    }
  }

  lemma BehindTwice(done: seq<Tree>, t: Tree, r: Parsed<seq<Tree>>)
    ensures Behind(done, Behind([t], r)) == Behind(done + [t], r)
  {
    if r.Ok? { Assoc(done, [t], r.value); }
  }

  lemma ListGoesOn(ts: seq<Token>, close: Mark, p: Purpose, done: seq<Tree>)
    requires Current(ts) != Token.Mark(close)
    ensures Remaining(done, ts, true, close, p) == AfterArgument(done, Expression(ts, p), close, p)
  {
    ListUnfolds(ts, close, p);
    BehindArgument(done, Expression(ts, p), close, p);
  }

  lemma BehindArgument(done: seq<Tree>, r: Parsed<Tree>, close: Mark, p: Purpose)
    ensures Behind(done, AfterArgument([], r, close, p)) == AfterArgument(done, r, close, p)
  {
    if r.Ok? {
      assert [] + [r.value] == [r.value];
      BehindTwice(done, r.value, List(AfterComma(r.rest), close, p));
    }
  }

  lemma ListStops(ts: seq<Token>, close: Mark, p: Purpose, done: seq<Tree>)
    requires Current(ts) == Token.Mark(close)
    ensures Remaining(done, ts, true, close, p) == Remaining(done, ts, false, close, p)
  {
    assert done + [] == done;
  }

  lemma ListStarts(ts: seq<Token>, close: Mark, p: Purpose)
    ensures Remaining([], ts, true, close, p) == List(ts, close, p)
  {
    var r := List(ts, close, p);
    if r.Ok? { assert [] + r.value == r.value; }
  }

  method SkipComma(lexer: Lexer)
    modifies lexer
    ensures lexer.input == AfterComma(old(lexer.input)) && |lexer.input| <= |old(lexer.input)|
  {
    if lexer.Value() == Token.Mark(Comma) {
      lexer.GetToken();
    }
  }

  /** One argument, and the comma behind it if there is one. */
  method CompileArgument(lexer: Lexer, p: Purpose) returns (arg: Node?, ghost afp: set<Node>)
    modifies lexer
    ensures fresh(afp) && |lexer.input| <= |old(lexer.input)|
    ensures var r := Expression(old(lexer.input), p);
      if r.Fail? then arg == null
      else arg != null && TreeOf(arg, afp) == Some(r.value) && lexer.input == AfterComma(r.rest)
    decreases |lexer.input|, 6
  {
    arg, afp := CompileExpression(lexer, p);
    if arg != null {
      SkipComma(lexer);
    }
  }

  method CompileArguments(lexer: Lexer, close: Mark, p: Purpose)
    returns (ok: bool, items: seq<Node>, ghost fp: set<Node>)
    requires lexer.Value() != Eof
    modifies lexer
    ensures fresh(fp) && |lexer.input| <= |old(lexer.input)|
    ensures var r := List(Advance(old(lexer.input)), close, p);
      if r.Fail? then !ok else ok && TreesOf(items, fp) == Some(r.value) && lexer.input == r.rest
    decreases |lexer.input|, 0
  {
    lexer.GetToken();
    ghost var ts, done := lexer.input, [];
    items, fp, ok := [], {}, true;
    ListStarts(ts, close, p);
    var more := true;
    while more
      invariant fresh(fp) && |lexer.input| <= |ts| && TreesOf(items, fp) == Some(done)
      invariant List(ts, close, p) == Remaining(done, lexer.input, more, close, p)
      decreases more, |lexer.input|
    {
      if lexer.Value() == Token.Mark(close) {
        ListStops(lexer.input, close, p, done);
        more := false;
      } else {
        ok, more, items, done, fp := AddArgument(lexer, close, p, items, done, fp);
        if !ok {
          return;
        }
      }
    }
  }

  /** Compiles one more argument behind those done. */
  method AddArgument(lexer: Lexer, close: Mark, p: Purpose, items: seq<Node>, ghost done: seq<Tree>,
                     ghost fp: set<Node>)
    returns (ok: bool, more: bool, items': seq<Node>, ghost done': seq<Tree>, ghost fp': set<Node>)
    requires TreesOf(items, fp) == Some(done) && lexer.Value() != Token.Mark(close)
    modifies lexer
    ensures fresh(fp' - fp) && |lexer.input| <= |old(lexer.input)|
      && (ok && more ==> |lexer.input| < |old(lexer.input)|)
    ensures !ok ==> Remaining(done, old(lexer.input), true, close, p).Fail?
    ensures ok ==> TreesOf(items', fp') == Some(done')
    ensures ok ==> Remaining(done, old(lexer.input), true, close, p) == Remaining(done', lexer.input, more, close, p)
    decreases |lexer.input|, 7
  {
    ListGoesOn(lexer.input, close, p, done);
    ghost var t := Expression(lexer.input, p);
    var arg, afp := CompileArgument(lexer, p);
    ok, more, items', done', fp' := arg != null, lexer.Value() != Eof, [], [], {};
    if ok {
      Append(items, done, fp, arg, t.value, afp);
      items', done', fp' := items + [arg], done + [t.value], fp + afp;
    }
  }

  lemma Append(ns: seq<Node>, ts: seq<Tree>, fp: set<Node>, n: Node, t: Tree, nfp: set<Node>)
    requires TreesOf(ns, fp) == Some(ts) && TreeOf(n, nfp) == Some(t)
    ensures TreesOf(ns + [n], fp + nfp) == Some(ts + [t])
  {
    WidenAll(ns, fp, fp + nfp);
    Widen(n, nfp, fp + nfp);
  }

  lemma OperationIn(n: Node, op: Mark, l: Tree, lfp: set<Node>, r: Tree, rfp: set<Node>)
    requires n.kind == OperationKind && n.op == op && n.left != null && n.right != null
    requires TreeOf(n.left, lfp) == Some(l) && TreeOf(n.right, rfp) == Some(r) && n !in lfp + rfp
    ensures TreeOf(n, lfp + rfp + {n}) == Some(Operation(op, l, r))
  {
    assert lfp <= lfp + rfp + {n} - {n} && rfp <= lfp + rfp + {n} - {n};
    Widen(n.left, lfp, lfp + rfp + {n} - {n});
    Widen(n.right, rfp, lfp + rfp + {n} - {n});
  }

  /** One pair of index brackets behind current; a chain before it becomes part of the base. */
  method CompileIndex(lexer: Lexer, current: Node, top: Node?, ghost t: Tree, ghost cfp: set<Node>,
                      ghost chain: Option<seq<Tree>>, ghost mfp: set<Node>)
    returns (result: Node?, ghost fp: set<Node>)
    requires TreeOf(current, cfp) == Some(t) && ChainIn(top, chain, mfp) && cfp !! mfp
    requires Current(lexer.input) == Token.Mark(Bracket)
    modifies lexer, mfp
    ensures |lexer.input| < |old(lexer.input)| && fresh(fp - cfp - mfp)
    ensures var r := Expression(Advance(old(lexer.input)), Index);
      if r.Fail? then result == null
      else
        && result != null && lexer.input == Advance(r.rest)
        && TreeOf(result, fp) == Some(Operation(Bracket, Whole(t, chain), r.value))
    decreases |lexer.input|, 2
  {
    var pOperator := CreateOperation(Bracket);
    result, fp := null, {};
    ghost var r := Expression(Advance(lexer.input), Index);
    var rightValue, rfp := ReadIndex(lexer);
    if rightValue != null {
      assert pOperator !in mfp + cfp + rfp && rfp !! mfp;
      result, fp := AttachIndex(pOperator, top, current, rightValue, t, cfp, chain, mfp, r.value, rfp);
    }
  }

  /** The brackets and what is between them. */
  method ReadIndex(lexer: Lexer) returns (result: Node?, ghost fp: set<Node>)
    requires Current(lexer.input) == Token.Mark(Bracket)
    modifies lexer
    ensures |lexer.input| < |old(lexer.input)| && fresh(fp)
    ensures var r := Expression(Advance(old(lexer.input)), Index);
      if r.Fail? then result == null
      else result != null && TreeOf(result, fp) == Some(r.value) && lexer.input == Advance(r.rest)
    decreases |lexer.input|, 1
  {
    lexer.GetToken();
    assert |lexer.input| < |old(lexer.input)|;
    result, fp := CompileExpression(lexer, Index);
    if result != null {
      lexer.GetToken();
    }
  }

  method AttachIndex(pOperator: Node, top: Node?, current: Node, rightValue: Node, ghost t: Tree, ghost cfp: set<Node>,
                     ghost chain: Option<seq<Tree>>, ghost mfp: set<Node>, ghost i: Tree, ghost rfp: set<Node>)
    returns (result: Node, ghost fp: set<Node>)
    requires TreeOf(current, cfp) == Some(t) && ChainIn(top, chain, mfp) && TreeOf(rightValue, rfp) == Some(i)
    requires cfp !! mfp && rfp !! mfp && pOperator !in mfp + cfp + rfp
    requires pOperator.kind == OperationKind && pOperator.op == Bracket
    modifies pOperator, mfp
    ensures TreeOf(result, fp) == Some(Operation(Bracket, Whole(t, chain), i)) && fp == mfp + cfp + rfp + {pOperator}
  {
    var left := PushSymbol(top, current, t, cfp, chain, mfp);
    pOperator.left, pOperator.right := left, rightValue;
    OperationIn(pOperator, Bracket, Whole(t, chain), mfp + cfp, i, rfp);
    result, fp := pOperator, mfp + cfp + rfp + {pOperator};
  }

  lemma IndexesGoOn(ts: seq<Token>, t: Tree, chain: Option<seq<Tree>>)
    requires Current(ts) == Token.Mark(Bracket)
    ensures Indexes(ts, t, chain) ==
      match Expression(Advance(ts), Index)
      case Fail => Fail
      case Ok(i, rest) => Indexes(Advance(rest), Operation(Bracket, Whole(t, chain), i), None)
  {
  }

  method CompileIndexes(lexer: Lexer, current: Node, top: Node?, ghost t: Tree, ghost cfp: set<Node>,
                        ghost chain: Option<seq<Tree>>, ghost mfp: set<Node>)
    returns (current': Node?, top': Node?, ghost t': Tree, ghost cfp': set<Node>, ghost chain': Option<seq<Tree>>,
             ghost mfp': set<Node>)
    requires TreeOf(current, cfp) == Some(t) && ChainIn(top, chain, mfp) && cfp !! mfp
    modifies lexer, mfp
    ensures |lexer.input| <= |old(lexer.input)| && fresh(cfp' + mfp' - cfp - mfp) && mfp' <= mfp
    ensures var r := Indexes(old(lexer.input), t, chain);
      if r.Fail? then current' == null
      else
        && current' != null && r.value == (t', chain') && lexer.input == r.rest
        && TreeOf(current', cfp') == Some(t') && ChainIn(top', chain', mfp') && cfp' !! mfp'
    decreases |lexer.input|, 3, 0
  {
    current', top', t', cfp', chain', mfp' := current, top, t, cfp, chain, mfp;
    ghost var ts := lexer.input;
    while lexer.Value() == Token.Mark(Bracket)
      invariant current' != null && TreeOf(current', cfp') == Some(t') && ChainIn(top', chain', mfp') && cfp' !! mfp'
      invariant fresh(cfp' + mfp' - cfp - mfp) && mfp' <= mfp
      invariant Indexes(ts, t, chain) == Indexes(lexer.input, t', chain') && |lexer.input| <= |ts|
      decreases |lexer.input|
    {
      IndexesGoOn(lexer.input, t', chain');
      ghost var r := Expression(Advance(lexer.input), Index);
      current', cfp' := CompileIndex(lexer, current', top', t', cfp', chain', mfp');
      if r.Ok? { t' := Operation(Bracket, Whole(t', chain'), r.value); }
      top', chain', mfp' := null, None, {};
      if current' == null {
        return;
      }
    }
  }
}
