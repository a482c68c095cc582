/** Managed objects and the pointers between them. */
module Heap {

  /** The content of one slot of a managed block: a bit for "reached by the current scan", and
      what the object holds. */
  class Managed {
    var marked: bool
    var body: Body

    constructor (blank: Body)
      ensures !marked && body == blank
    {
      marked, body := false, blank;
    }
  }

  /** What the interpreter passes around: nothing, an integer kept in the pointer itself, or an item. */
  datatype Value = Null | Direct(n: int) | Ref(item: Managed)

  datatype Slot = Slot(key: nat, value: Value)

  /** The key under which a part of an object holds its superclass part. */
  const SUPER: nat := 0

  /** The pointers an object holds. The first seven are items. */
  datatype Body =
    | Plain
    | Part(isModule: bool, variables: Managed?, child: Value)
    | ArrayValue(vector: Managed?)
    | Closure(frame: Managed?, owner: Value)
    | TableReference(table: Managed?)
    | ArrayReference(vector: Managed?)
    | StringReference(target: Value)
    | Table(slots: seq<Slot>)
    | Vector(managed: bool, items: seq<Value>)
    | Frame(lastResult: Value, this_: Value, locals: Managed?, ownerFrame: Managed?, previous: Managed?)
  {
    predicate IsItem() {
      !Table? && !Vector? && !Frame?
    }
  }

  /** A heap as a value, with a rank that falls along the pointers from item to item and along
      previous: objects are linked to older ones when they are built. */
  datatype Graph = Graph(body: map<Managed, Body>, rank: map<Managed, nat>) {

    predicate Item(v: Value) {
      v.Ref? ==> v.item in body && v.item in rank && body[v.item].IsItem()
    }

    predicate Below(v: Value, o: Managed)
      requires o in rank
    {
      v.Ref? ==> v.item in rank && rank[v.item] < rank[o]
    }

    predicate TableOrNull(t: Managed?) {
      t == null || (t in body && body[t].Table?)
    }

    predicate VectorOrNull(t: Managed?) {
      t == null || (t in body && body[t].Vector?)
    }

    predicate FrameOrNull(t: Managed?) {
      t == null || (t in body && t in rank && body[t].Frame?)
    }

    /** Pointers lead to objects of the right kind, and ranks fall. */
    predicate ValidAt(o: Managed)
      requires o in body
    {
      o in rank &&
      match body[o]
      case Plain => true
      case Part(_, vars, child) => TableOrNull(vars) && Item(child) && Below(child, o)
      case ArrayValue(v) => VectorOrNull(v)
      case Closure(f, owner) => FrameOrNull(f) && Item(owner) && Below(owner, o)
      case TableReference(t) => TableOrNull(t)
      case ArrayReference(v) => VectorOrNull(v)
      case StringReference(s) => Item(s) && Below(s, o)
      case Table(slots) => forall i :: 0 <= i < |slots| ==> Item(slots[i].value)
      case Vector(_, items) => forall i :: 0 <= i < |items| ==> Item(items[i])
      case Frame(r, t, locals, owner, previous) =>
        && Item(r) && Item(t) && TableOrNull(locals) && FrameOrNull(owner) && FrameOrNull(previous)
        && (previous != null ==> rank[previous] < rank[o])
    }

    ghost predicate Valid() {
      forall o :: o in body ==> ValidAt(o)
    }

    /** The objects that are marked before what they point at. */
    ghost function Containers(): set<Managed> {
      set o | o in body && !body[o].IsItem()
    }
  }

  function ValuesOf(slots: seq<Slot>): (r: seq<Value>)
    ensures |r| == |slots| && forall i :: 0 <= i < |r| ==> r[i] == slots[i].value
  {
    seq(|slots|, i requires 0 <= i < |slots| => slots[i].value)
  }

  // ----- reachability by the pointers themselves -----

  function Refs(v: Value): set<Managed> {
    if v.Ref? then {v.item} else {}
  }

  function Opt(p: Managed?): set<Managed> {
    if p == null then {} else {p}
  }

  ghost function AllRefs(vs: seq<Value>): set<Managed> {
    set i | 0 <= i < |vs| && vs[i].Ref? :: vs[i].item
  }

  ghost function Successors(b: Body): set<Managed> {
    match b
    case Plain => {}
    case Part(_, vars, child) => Opt(vars) + Refs(child)
    case ArrayValue(v) => Opt(v)
    case Closure(f, owner) => Opt(f) + Refs(owner)
    case TableReference(t) => Opt(t)
    case ArrayReference(v) => Opt(v)
    case StringReference(s) => Refs(s)
    case Table(slots) => AllRefs(ValuesOf(slots))
    case Vector(managed, items) => if managed then AllRefs(items) else {}
    case Frame(r, t, locals, owner, previous) => Refs(r) + Refs(t) + Opt(locals) + Opt(owner) + Opt(previous)
  }

  /** o can be reached from roots by following n pointers. */
  ghost predicate ReachableIn(g: Graph, roots: set<Managed>, o: Managed, n: nat) {
    o in g.body &&
    if n == 0 then o in roots
    else exists x :: x in g.body && ReachableIn(g, roots, x, n - 1) && o in Successors(g.body[x])
  }

  ghost predicate Reachable(g: Graph, roots: set<Managed>, o: Managed) {
    exists n: nat :: ReachableIn(g, roots, o, n)
  }

  ghost predicate Closed(g: Graph, s: set<Managed>) {
    s <= g.body.Keys && forall o {:trigger Successors(g.body[o])} :: o in s ==> Successors(g.body[o]) <= s
  }

  /** The reachable objects. */
  ghost function Reach(g: Graph, roots: set<Managed>): set<Managed> {
    set o | o in g.body && Reachable(g, roots, o)
  }

  lemma StepBefore(g: Graph, roots: set<Managed>, o: Managed, n: nat) returns (x: Managed)
    requires ReachableIn(g, roots, o, n + 1)
    ensures x in g.body && ReachableIn(g, roots, x, n) && o in Successors(g.body[x])
  {
    x :| x in g.body && ReachableIn(g, roots, x, n) && o in Successors(g.body[x]);
  }

  lemma ClosedUnder(g: Graph, s: set<Managed>, x: Managed, o: Managed)
    requires Closed(g, s) && x in s && o in Successors(g.body[x])
    ensures o in s
  {
    assert Successors(g.body[x]) <= s;
  }

  lemma {:induction false} StepsStay(g: Graph, roots: set<Managed>, s: set<Managed>, o: Managed, n: nat)
    requires Closed(g, s) && roots <= s && ReachableIn(g, roots, o, n)
    ensures o in s
  {
    if n > 0 {
      var less: nat := n - 1;
      var x := StepBefore(g, roots, o, less);
      StepsStay(g, roots, s, x, less);
      ClosedUnder(g, s, x, o);
    }
  }

  /** Reachable objects are those in every closed set that holds the roots... */
  lemma ReachIsLeast(g: Graph, roots: set<Managed>, s: set<Managed>)
    requires Closed(g, s) && roots <= s
    ensures Reach(g, roots) <= s
  {
    forall o | o in Reach(g, roots) ensures o in s {
      var n: nat :| ReachableIn(g, roots, o, n);
      StepsStay(g, roots, s, o, n);
    }
  }

  lemma SuccessorsInside(g: Graph, o: Managed)
    requires g.Valid() && o in g.body
    ensures Successors(g.body[o]) <= g.body.Keys
  {
  }

  /** ... and form such a set themselves. */
  lemma ReachIsClosed(g: Graph, roots: set<Managed>)
    requires g.Valid() && roots <= g.body.Keys
    ensures Closed(g, Reach(g, roots)) && roots <= Reach(g, roots)
  {
    forall o | o in roots ensures o in Reach(g, roots) {
      assert ReachableIn(g, roots, o, 0);
    }
    forall o, x | o in Reach(g, roots) && x in Successors(g.body[o]) ensures x in Reach(g, roots) {
      var n: nat :| ReachableIn(g, roots, o, n);
      SuccessorsInside(g, o);
      assert ReachableIn(g, roots, x, n + 1);
    }
  }
}
