/** Operator precedence on its own: the tree that priorities and left-associativity demand,
    why there is only one, and the right spine by which the compiler builds it. */
module Precedence {
  import opened Tokens
  import opened Seqs

  /** An infix tree whose leaves are opaque operands (a parenthesised operand is a leaf). */
  datatype Shape<T> = Leaf(operand: T) | Node(op: Mark, left: Shape<T>, right: Shape<T>)

  function Operands<T>(s: Shape<T>): (r: seq<T>)
    ensures |r| == |Operators(s)| + 1
  {
    match s
    case Leaf(t) => [t]
    case Node(_, l, r) => Operands(l) + Operands(r)
  }

  function Operators<T>(s: Shape<T>): seq<Mark> {
    match s
    case Leaf(_) => []
    case Node(op, l, r) => Operators(l) + [op] + Operators(r)
  }

  predicate RootAtLeast<T>(s: Shape<T>, p: int) {
    s.Node? ==> Priority(s.op) >= p
  }

  /** What the priorities demand of every parent and child. */
  predicate Canonical<T>(s: Shape<T>) {
    match s
    case Leaf(_) => true
    case Node(op, l, r) =>
      && RootAtLeast(l, Priority(op)) && RootAtLeast(r, Priority(op) + 1)
      && Canonical(l) && Canonical(r)
  }

  predicate AllAtLeast(ops: seq<Mark>, p: int) {
    forall i :: 0 <= i < |ops| ==> Priority(ops[i]) >= p
  }

  lemma {:induction false} CanonicalBounds<T>(s: Shape<T>, p: int)
    requires Canonical(s) && RootAtLeast(s, p)
    ensures AllAtLeast(Operators(s), p)
  {
    if s.Node? {
      CanonicalBounds(s.left, p);
      CanonicalBounds(s.right, p);
    }
  }

  /** k is the rightmost of the loosest operators: where the tree must split. */
  predicate SplitsAt(ops: seq<Mark>, k: int) {
    && 0 <= k < |ops|
    && (forall i :: 0 <= i < k ==> Priority(ops[i]) >= Priority(ops[k]))
    && (forall i :: k < i < |ops| ==> Priority(ops[i]) > Priority(ops[k]))
  }

  lemma CanonicalSplits<T>(s: Shape<T>)
    requires Canonical(s) && s.Node?
    ensures SplitsAt(Operators(s), |Operators(s.left)|)
  {
    CanonicalBounds(s.left, Priority(s.op));
    CanonicalBounds(s.right, Priority(s.op) + 1);
    var l, r := Operators(s.left), Operators(s.right);
    forall i | 0 <= i < |l| ensures Priority((l + [s.op] + r)[i]) >= Priority(s.op) {
      assert (l + [s.op] + r)[i] == l[i];
    }
    forall i | |l| < i < |l| + 1 + |r| ensures Priority((l + [s.op] + r)[i]) > Priority(s.op) {
      assert (l + [s.op] + r)[i] == r[i - |l| - 1];
    }
  }

  /** At most one canonical tree has a given in-order traversal. */
  lemma {:induction false} CanonicalUnique<T>(s: Shape<T>, t: Shape<T>)
    requires Canonical(s) && Canonical(t)
    requires Operands(s) == Operands(t) && Operators(s) == Operators(t)
    ensures s == t
  {
    if s.Node? && t.Node? {
      CanonicalSplits(s);
      CanonicalSplits(t);
      Middle(Operators(s.left), s.op, Operators(s.right));
      Middle(Operators(t.left), t.op, Operators(t.right));
      Halves(Operands(s.left), Operands(s.right));
      Halves(Operands(t.left), Operands(t.right));
      CanonicalUnique(s.left, t.left);
      CanonicalUnique(s.right, t.right);
    }
  }

  /** The rightmost loosest operator of a non-empty list. */
  function SplitPoint(ops: seq<Mark>): (k: nat)
    requires ops != []
    ensures SplitsAt(ops, k)
  {
    if |ops| == 1 then 0
    else
      var k := SplitPoint(ops[..|ops| - 1]);
      if Priority(ops[|ops| - 1]) <= Priority(ops[k]) then |ops| - 1 else k
  }

  lemma SplitBounds(ops: seq<Mark>, k: int)
    requires SplitsAt(ops, k)
    ensures AllAtLeast(ops[..k], Priority(ops[k])) && AllAtLeast(ops[k + 1..], Priority(ops[k]) + 1)
  {
  }

  lemma RootWithin<T>(s: Shape<T>, p: int)
    requires AllAtLeast(Operators(s), p)
    ensures RootAtLeast(s, p)
  {
    if s.Node? {
      assert s.op == Operators(s)[|Operators(s.left)|];
    }
  }

  /** The reference tree: split at the loosest operator, rightmost first. */
  function Build<T>(os: seq<T>, ops: seq<Mark>): (s: Shape<T>)
    requires |os| == |ops| + 1
    ensures Canonical(s) && Operands(s) == os && Operators(s) == ops
    decreases |ops|
  {
    if ops == [] then Leaf(os[0])
    else
      var k := SplitPoint(ops);
      var l := Build(os[..k + 1], ops[..k]);
      var r := Build(os[k + 1..], ops[k + 1..]);
      Rejoin(ops, k);
      Rejoin(os, k);
      SplitBounds(ops, k);
      RootWithin(l, Priority(ops[k]));
      RootWithin(r, Priority(ops[k]) + 1);
      Node(ops[k], l, r)
  }

  /** The reference tree is the one and only canonical tree over its operands and operators. */
  lemma BuildIsTheCanonicalTree<T>(os: seq<T>, ops: seq<Mark>, s: Shape<T>)
    requires |os| == |ops| + 1
    ensures s == Build(os, ops) <==> Canonical(s) && Operands(s) == os && Operators(s) == ops
  {
    if Canonical(s) && Operands(s) == os && Operators(s) == ops {
      CanonicalUnique(s, Build(os, ops));
    }
  }

  // ----- the right spine of a partial tree -----

  /** One operator still waiting for its right operand, with its finished left operand. */
  datatype Entry<T> = Entry(left: Shape<T>, op: Mark)

  /** The tree that results when a supplies the one missing operand. */
  function Close<T>(spine: seq<Entry<T>>, a: Shape<T>): Shape<T> {
    if spine == [] then a
    else Node(spine[0].op, spine[0].left, Close(spine[1..], a))
  }

  /** Priorities rise strictly along the spine; every left operand is canonical for its operator. */
  predicate SpineOk<T>(spine: seq<Entry<T>>) {
    && (forall i :: 0 <= i < |spine| ==>
          Canonical(spine[i].left) && RootAtLeast(spine[i].left, Priority(spine[i].op)))
    && (forall i, j :: 0 <= i < j < |spine| ==> Priority(spine[i].op) < Priority(spine[j].op))
    && (forall i :: 0 <= i < |spine| ==> IsOperator(spine[i].op))
  }

  /** The input consumed so far, as a prefix that waits for one more operand. */
  function SpineOperands<T>(spine: seq<Entry<T>>): seq<T> {
    if spine == [] then [] else Operands(spine[0].left) + SpineOperands(spine[1..])
  }

  function SpineOperators<T>(spine: seq<Entry<T>>): seq<Mark> {
    if spine == [] then [] else Operators(spine[0].left) + [spine[0].op] + SpineOperators(spine[1..])
  }

  lemma {:induction false} CloseIsCanonical<T>(spine: seq<Entry<T>>, t: T)
    requires SpineOk(spine)
    ensures Canonical(Close(spine, Leaf(t)))
    ensures spine != [] ==> Close(spine, Leaf(t)).Node? && Close(spine, Leaf(t)).op == spine[0].op
  {
    if spine != [] {
      CloseIsCanonical(spine[1..], t);
      if |spine| > 1 { assert spine[1..][0] == spine[1]; }
    }
  }

  lemma {:induction false} CloseTraversal<T>(spine: seq<Entry<T>>, t: T)
    ensures Operands(Close(spine, Leaf(t))) == SpineOperands(spine) + [t]
    ensures Operators(Close(spine, Leaf(t))) == SpineOperators(spine)
  {
    if spine != [] {
      CloseTraversal(spine[1..], t);
      Assoc(Operands(spine[0].left), SpineOperands(spine[1..]), [t]);
    }
  }

  /** How many spine entries stay when an operator of priority p arrives: the search from the
      end for an entry that binds more loosely. */
  function Kept<T>(spine: seq<Entry<T>>, p: int): (k: nat)
    ensures k <= |spine|
    ensures k > 0 ==> Priority(spine[k - 1].op) < p
    ensures forall i :: k <= i < |spine| ==> Priority(spine[i].op) >= p
  {
    if spine == [] then 0
    else if Priority(spine[|spine| - 1].op) < p then |spine|
    else Kept(spine[..|spine| - 1], p)
  }

  /** One operand and one operator later. */
  function Grow<T>(spine: seq<Entry<T>>, t: T, op: Mark): seq<Entry<T>> {
    var k := Kept(spine, Priority(op));
    spine[..k] + [Entry(Close(spine[k..], Leaf(t)), op)]
  }

  lemma {:induction false} SpineTraversalSplit<T>(a: seq<Entry<T>>, b: seq<Entry<T>>)
    ensures SpineOperands(a + b) == SpineOperands(a) + SpineOperands(b)
    ensures SpineOperators(a + b) == SpineOperators(a) + SpineOperators(b)
  {
    if a == [] {
      assert a + b == b;
    } else {
      assert (a + b)[1..] == a[1..] + b;
      SpineTraversalSplit(a[1..], b);
    }
  }

  /** The entries that a new operator of priority p closes form a spine of their own, whose root
      binds at least as tightly. */
  lemma ClosedPart<T>(spine: seq<Entry<T>>, t: T, p: int)
    requires SpineOk(spine)
    ensures SpineOk(spine[Kept(spine, p)..])
    ensures Canonical(Close(spine[Kept(spine, p)..], Leaf(t)))
    ensures RootAtLeast(Close(spine[Kept(spine, p)..], Leaf(t)), p)
  {
    CloseIsCanonical(spine[Kept(spine, p)..], t);
  }

  lemma GrowKeepsOrder<T>(spine: seq<Entry<T>>, e: Entry<T>)
    requires SpineOk(spine) && IsOperator(e.op)
    requires Canonical(e.left) && RootAtLeast(e.left, Priority(e.op))
    requires spine != [] ==> Priority(spine[|spine| - 1].op) < Priority(e.op)
    ensures SpineOk(spine + [e])
  {
  }

  lemma GrowOperands<T>(low: seq<Entry<T>>, high: seq<Entry<T>>, t: T, op: Mark)
    ensures SpineOperands(low + [Entry(Close(high, Leaf(t)), op)]) == SpineOperands(low + high) + [t]
  {
    var e := Entry(Close(high, Leaf(t)), op);
    CloseTraversal(high, t);
    SpineTraversalSplit(low, [e]);
    SpineTraversalSplit(low, high);
    SingleTraversal(e);
    Assoc(SpineOperands(low), SpineOperands(high), [t]);
  }

  lemma GrowOperators<T>(low: seq<Entry<T>>, high: seq<Entry<T>>, t: T, op: Mark)
    ensures SpineOperators(low + [Entry(Close(high, Leaf(t)), op)]) == SpineOperators(low + high) + [op]
  {
    var e := Entry(Close(high, Leaf(t)), op);
    CloseTraversal(high, t);
    SpineTraversalSplit(low, [e]);
    SpineTraversalSplit(low, high);
    SingleTraversal(e);
    Assoc(SpineOperators(low), SpineOperators(high), [op]);
  }

  lemma GrowTraversal<T>(spine: seq<Entry<T>>, t: T, op: Mark)
    ensures SpineOperands(Grow(spine, t, op)) == SpineOperands(spine) + [t]
    ensures SpineOperators(Grow(spine, t, op)) == SpineOperators(spine) + [op]
  {
    var k := Kept(spine, Priority(op));
    GrowOperands(spine[..k], spine[k..], t, op);
    GrowOperators(spine[..k], spine[k..], t, op);
    assert spine[..k] + spine[k..] == spine;
  }

  lemma SingleTraversal<T>(e: Entry<T>)
    ensures SpineOperands([e]) == Operands(e.left) && SpineOperators([e]) == Operators(e.left) + [e.op]
  {
    assert [e][1..] == [];
  }

  lemma GrowIsOk<T>(spine: seq<Entry<T>>, t: T, op: Mark)
    requires SpineOk(spine) && IsOperator(op)
    ensures SpineOk(Grow(spine, t, op))
  {
    var k := Kept(spine, Priority(op));
    ClosedPart(spine, t, Priority(op));
    GrowKeepsOrder(spine[..k], Entry(Close(spine[k..], Leaf(t)), op));
  }

  /** Growing keeps the spine well formed and appends exactly the operand and the operator. */
  lemma GrowCorrect<T>(spine: seq<Entry<T>>, t: T, op: Mark)
    requires SpineOk(spine) && IsOperator(op)
    ensures SpineOk(Grow(spine, t, op))
    ensures SpineOperands(Grow(spine, t, op)) == SpineOperands(spine) + [t]
    ensures SpineOperators(Grow(spine, t, op)) == SpineOperators(spine) + [op]
  {
    GrowIsOk(spine, t, op);
    GrowTraversal(spine, t, op);
  }

  /** With priorities between 1 and 15, no expression ever needs more than 15 pending operators. */
  lemma {:induction false} SpineShort<T>(spine: seq<Entry<T>>)
    requires SpineOk(spine)
    ensures |spine| <= 15
    ensures spine != [] ==> |spine| <= Priority(spine[|spine| - 1].op)
  {
    if |spine| > 1 {
      var s := spine[..|spine| - 1];
      SpineShort(s);
      assert Priority(spine[|spine| - 2].op) < Priority(spine[|spine| - 1].op);
    }
  }
}
