/** Which pointers matter, field by field: what a guarded collection keeps is what paths along them lead
    to from the roots. */
module Paths {
  import opened Heap
  import opened Tracing
  import opened Exactness
  import opened Slots
  import opened Collection

  /** A field of o holds x. */
  ghost predicate PointsAt(g: Graph, o: Managed, x: Managed)
    requires o in g.body
  {
    match g.body[o]
    case Plain => false
    case ArrayValue(vector) => vector == x
    case ArrayReference(vector) => vector == x
    case Part(_, variables, child) => variables == x || child == Ref(x)
    case Closure(frame, owner) => frame == x || owner == Ref(x)
    case TableReference(table) => table == x
    case StringReference(target) => target == Ref(x)
    case Table(slots) => exists i :: 0 <= i < |slots| && slots[i].value == Ref(x)
    case Vector(managed, items) => managed && Ref(x) in items
    case Frame(lastResult, this_, locals, ownerFrame, previous) =>
      lastResult == Ref(x) || this_ == Ref(x) || locals == x || ownerFrame == x || previous == x
  }

  /** A cell of the operand stack, the exception, the globals or the current frame. */
  ghost predicate IsRoot(roots: Roots, x: Managed) {
    Ref(x) in roots.stack || roots.exception == Ref(x) || roots.globals == x || roots.frame == x
  }

  /** From a root to o, along the fields. */
  ghost predicate Path(g: Graph, roots: Roots, path: seq<Managed>, o: Managed) {
    && path != [] && IsRoot(roots, path[0]) && path[|path| - 1] == o && (forall x | x in path :: x in g.body)
    && forall i :: 0 <= i < |path| - 1 ==> PointsAt(g, path[i], path[i + 1])
  }

  lemma InRefs(vs: seq<Value>, x: Managed)
    ensures x in AllRefs(vs) <==> Ref(x) in vs
  {
    if Ref(x) in vs {
      var i :| 0 <= i < |vs| && vs[i] == Ref(x);
      assert vs[i].item in AllRefs(vs);
    }
  }

  lemma FieldsAreSuccessors(g: Graph, o: Managed, x: Managed)
    requires o in g.body
    ensures PointsAt(g, o, x) <==> x in Successors(g.body[o])
  {
    match g.body[o] {
      case Table(slots) => InSlots(slots, x);
      case Vector(_, items) => InRefs(items, x);
      case _ =>
    }
  }

  lemma InSlots(slots: seq<Slot>, x: Managed)
    ensures x in AllRefs(ValuesOf(slots)) <==> exists i :: 0 <= i < |slots| && slots[i].value == Ref(x)
  {
    InRefs(ValuesOf(slots), x);
    if i :| 0 <= i < |slots| && slots[i].value == Ref(x) {
      assert ValuesOf(slots)[i] == Ref(x);
    }
    if Ref(x) in ValuesOf(slots) {
      var i :| 0 <= i < |slots| && ValuesOf(slots)[i] == Ref(x);
      assert slots[i].value == Ref(x);
    }
  }

  lemma RootsAreObjects(roots: Roots, x: Managed)
    ensures IsRoot(roots, x) <==> x in roots.Objects()
  {
    InRefs(roots.stack, x);
  }

  lemma {:induction false} PathStays(g: Graph, roots: Roots, path: seq<Managed>, i: nat)
    requires roots.Valid(g) && i < |path| && Path(g, roots, path, path[|path| - 1])
    ensures path[i] in Needed(g, roots)
  {
    ReachIsClosed(g, roots.Objects());
    if i == 0 {
      RootsAreObjects(roots, path[0]);
    } else {
      PathStays(g, roots, path, i - 1);
      FieldsAreSuccessors(g, path[i - 1], path[i]);
      assert Successors(g.body[path[i - 1]]) <= Needed(g, roots);
    }
  }

  lemma {:induction false} StepsArePath(g: Graph, roots: Roots, o: Managed, n: nat) returns (path: seq<Managed>)
    requires ReachableIn(g, roots.Objects(), o, n)
    ensures Path(g, roots, path, o)
  {
    if n == 0 {
      path := [o];
      RootsAreObjects(roots, o);
    } else {
      var less: nat := n - 1;
      var x := StepBefore(g, roots.Objects(), o, less);
      FieldsAreSuccessors(g, x, o);
      var before := StepsArePath(g, roots, x, less);
      path := before + [o];
      LongerPath(g, roots, before, x, o);
    }
  }

  lemma LongerPath(g: Graph, roots: Roots, path: seq<Managed>, x: Managed, o: Managed)
    requires Path(g, roots, path, x) && o in g.body && PointsAt(g, x, o)
    ensures Path(g, roots, path + [o], o)
  {
  }

  lemma NeededIffPath(g: Graph, roots: Roots, o: Managed)
    requires roots.Valid(g) && o in g.body
    ensures o in Needed(g, roots) <==> exists path :: Path(g, roots, path, o)
  {
    if o in Needed(g, roots) {
      var n: nat :| ReachableIn(g, roots.Objects(), o, n);
      var path := StepsArePath(g, roots, o, n);
    }
    if path :| Path(g, roots, path, o) {
      PathStays(g, roots, path, |path| - 1);
    }
  }

  /** What a guarded collection keeps: the allocated objects that are new or that a path leads to. */
  lemma KeptIffPath(g: Graph, roots: Roots, s: map<Managed, State>, o: Managed)
    requires roots.Valid(g) && Fits(g, s) && Guarded(g, roots) && o in s
    ensures o in After(g, roots, s)
    ensures After(g, roots, s)[o].used <==> s[o].used && (s[o].created || exists path :: Path(g, roots, path, o))
  {
    NeededIffPath(g, roots, o);
    FreedExactly(g, roots, s, o);
  }

  /** No old object is left with a pointer to a slot that was freed, whatever the field. */
  lemma NoPointerDangles(g: Graph, roots: Roots, s: map<Managed, State>, o: Managed, x: Managed)
    requires roots.Valid(g) && Fits(g, s) && Guarded(g, roots) && o in s && x in s
    requires After(g, roots, s)[o].used && !s[o].created && PointsAt(g, o, x)
    ensures x in After(g, roots, s) && After(g, roots, s)[o].body == g.body[o]
    ensures s[x].used ==> After(g, roots, s)[x].used
  {
    GarbageIsFreed(g, roots, s, o);
    NeededField(g, roots, o, x);
    FreedExactly(g, roots, s, x);
  }

  lemma NeededField(g: Graph, roots: Roots, o: Managed, x: Managed)
    requires roots.Valid(g) && o in Needed(g, roots) && PointsAt(g, o, x)
    ensures x in Needed(g, roots)
  {
    ReachIsClosed(g, roots.Objects());
    FieldsAreSuccessors(g, o, x);
    assert Successors(g.body[o]) <= Needed(g, roots);
  }

  /** A slot that is freed is left empty, but for a frame, which keeps its fields. */
  lemma FreedSlotIsEmpty(g: Graph, roots: Roots, s: map<Managed, State>, o: Managed, x: Managed)
    requires roots.Valid(g) && Fits(g, s) && o in s && s[o].used && !After(g, roots, s)[o].used
    ensures var h := Rest(g, After(g, roots, s));
      && o in h.body && h.body[o].IsItem() == g.body[o].IsItem() && h.body[o].Frame? == g.body[o].Frame?
      && if g.body[o].Frame? then h.body[o] == g.body[o] else !PointsAt(h, o, x)
  {
    FreedBody(g, roots, s, o);
    EmptyPointsNowhere(Rest(g, After(g, roots, s)), g.body[o], o, x);
  }

  lemma FreedBody(g: Graph, roots: Roots, s: map<Managed, State>, o: Managed)
    requires roots.Valid(g) && Fits(g, s) && o in s && s[o].used && !After(g, roots, s)[o].used
    ensures o in Rest(g, After(g, roots, s)).body && Rest(g, After(g, roots, s)).body[o] == Emptied(g.body[o])
  {
  }

  lemma EmptyPointsNowhere(h: Graph, b: Body, o: Managed, x: Managed)
    requires o in h.body && h.body[o] == Emptied(b)
    ensures h.body[o].IsItem() == b.IsItem() && h.body[o].Frame? == b.Frame?
    ensures if b.Frame? then h.body[o] == b else !PointsAt(h, o, x)
  {
  }
}
