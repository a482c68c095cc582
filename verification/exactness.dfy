/** When a scan marks every reachable object, and the objects it loses when it does not. */
module Exactness {
  import opened Heap
  import opened Tracing

  /** Where a collection starts: the operand stack, the exception object, the global table and
      the current frame. */
  datatype Roots = Roots(stack: seq<Value>, exception: Value, globals: Managed, frame: Managed?) {
    ghost predicate Valid(g: Graph) {
      && g.Valid() && Items(g, stack) && g.Item(exception)
      && globals in g.body && g.body[globals].Table? && g.FrameOrNull(frame)
    }

    ghost function Objects(): set<Managed> {
      AllRefs(stack) + Refs(exception) + {globals} + Opt(frame)
    }
  }

  /** The marks after a scan from the roots, in the order of the collector. */
  ghost function ScanRoots(g: Graph, roots: Roots): set<Managed>
    requires roots.Valid(g)
  {
    var m := ScanItem(g, ScanValues(g, {}, roots.stack, false), roots.exception);
    ScanFrame(g, ScanTable(g, m, roots.globals, true), roots.frame)
  }

  /** Nothing outside a set that confines scans is marked. */
  lemma ScanRootsInside(g: Graph, roots: Roots, s: set<Managed>)
    requires roots.Valid(g) && Confines(g, s, {}) && roots.Objects() <= s
    requires Open(g, s, {}, roots.globals, true)
    ensures ScanRoots(g, roots) <= s
  {
    var m1 := ScanValues(g, {}, roots.stack, false);
    ScanValuesInside(g, s, {}, roots.stack, false);
    ConfinesMore(g, s, {}, m1);
    AfterStack(g, roots, s, m1);
  }

  lemma AfterStack(g: Graph, roots: Roots, s: set<Managed>, m1: set<Managed>)
    requires roots.Valid(g) && m1 == ScanValues(g, {}, roots.stack, false)
    requires Confines(g, s, m1) && m1 <= s && roots.Objects() <= s && Open(g, s, m1, roots.globals, true)
    ensures ScanRoots(g, roots) <= s
  {
    var m2 := ScanItem(g, m1, roots.exception);
    ScanItemInside(g, s, m1, roots.exception);
    ConfinesMore(g, s, m1, m2);
    ScanTableInside(g, s, m2, roots.globals, true);
    var m3 := ScanTable(g, m2, roots.globals, true);
    ConfinesMore(g, s, m2, m3);
    ScanFrameInside(g, s, m3, roots.frame);
  }

  /** Whatever the heap looks like, nothing unreachable is marked. */
  lemma OnlyReachableMarked(g: Graph, roots: Roots)
    requires roots.Valid(g)
    ensures ScanRoots(g, roots) <= Reach(g, roots.Objects())
  {
    var s := Reach(g, roots.Objects());
    ReachIsClosed(g, roots.Objects());
    ClosedConfines(g, s, {});
    ClosedOpen(g, s, {}, roots.globals, true);
    ScanRootsInside(g, roots, s);
  }

  // ----- what is left undone by a finished scan -----

  /** Tables whose values may have been followed from their most derived parts. */
  ghost predicate TopTarget(g: Graph, s: set<Managed>, globals: Managed, t: Managed) {
    || t == globals
    || exists o ::
         o in s && o in g.body && (g.body[o] == TableReference(t) || (g.body[o].Frame? && g.body[o].locals == t))
  }

  /** The scan is finished with o. */
  ghost predicate Done(g: Graph, s: set<Managed>, globals: Managed, m: set<Managed>, o: Managed)
    requires g.Valid()
  {
    o in g.body &&
    match g.body[o]
    case Table(slots) =>
      AllRefs(ValuesOf(slots)) <= m || (TopTarget(g, s, globals, o) && TopsIn(g, m, ValuesOf(slots)))
    case Vector(managed, items) => managed ==> TopsIn(g, m, items)
    case _ => Successors(g.body[o]) <= m
  }

  /** The scan is finished with every marked object but those in gray. */
  ghost predicate DoneBut(g: Graph, s: set<Managed>, globals: Managed, m: set<Managed>, gray: set<Managed>)
    requires g.Valid()
  {
    gray <= m <= s && forall o :: o in m && o !in gray ==> Done(g, s, globals, m, o)
  }

  lemma DoneLasts(g: Graph, s: set<Managed>, globals: Managed, m: set<Managed>, wider: set<Managed>, o: Managed)
    requires g.Valid() && m <= wider && Done(g, s, globals, m, o)
    ensures Done(g, s, globals, wider, o)
  {
  }

  /** Marks one more object. */
  lemma MarkOne(g: Graph, s: set<Managed>, globals: Managed, m: set<Managed>, gray: set<Managed>, o: Managed)
    requires g.Valid() && DoneBut(g, s, globals, m, gray) && o in s && o in g.body
    ensures o !in m ==> DoneBut(g, s, globals, m + {o}, gray + {o})
    ensures Done(g, s, globals, m + {o}, o) ==> DoneBut(g, s, globals, m + {o}, gray)
  {
    forall x | x in m && x !in gray ensures Done(g, s, globals, m + {o}, x) {
      DoneLasts(g, s, globals, m, m + {o}, x);
    }
  }

  lemma Blacken(g: Graph, s: set<Managed>, globals: Managed, m: set<Managed>, gray: set<Managed>, o: Managed)
    requires g.Valid() && DoneBut(g, s, globals, m, gray + {o}) && Done(g, s, globals, m, o)
    ensures DoneBut(g, s, globals, m, gray)
  {
  }

  lemma {:induction false} ScanItemFinishes(g: Graph, s: set<Managed>, globals: Managed, m: set<Managed>,
                                            gray: set<Managed>, v: Value)
    requires g.Valid() && Closed(g, s) && g.Item(v) && Refs(v) <= s && DoneBut(g, s, globals, m, gray)
    ensures DoneBut(g, s, globals, ScanItem(g, m, v), gray)
    decreases g.Containers() - m, 1, if v.Ref? then g.rank[v.item] + 1 else 0
  {
    if v.Ref? && v.item !in m {
      var o := v.item;
      assert Successors(g.body[o]) <= s;
      var m' := m;
      match g.body[o] {
        case Part(_, vars, child) =>
          ScanTableFinishes(g, s, globals, m, gray, vars, false);
          m' := ScanTable(g, m, vars, false);
          ScanItemFinishes(g, s, globals, m', gray, child);
          m' := ScanItem(g, m', child);
        case ArrayValue(a) =>
          ScanVectorFinishes(g, s, globals, m, gray, a);
          m' := ScanVector(g, m, a);
        case Closure(f, owner) =>
          ScanFrameFinishes(g, s, globals, m, gray, f);
          m' := ScanFrame(g, m, f);
          ScanItemFinishes(g, s, globals, m', gray, owner);
          m' := ScanItem(g, m', owner);
        case TableReference(t) =>
          ScanTableFinishes(g, s, globals, m, gray, t, true);
          m' := ScanTable(g, m, t, true);
        case ArrayReference(a) =>
          ScanVectorFinishes(g, s, globals, m, gray, a);
          m' := ScanVector(g, m, a);
        case StringReference(t) =>
          ScanItemFinishes(g, s, globals, m, gray, t);
          m' := ScanItem(g, m, t);
        case _ =>
      }
      assert Successors(g.body[o]) <= m';
      assert ScanItem(g, m, v) == m' + {o};
      MarkOne(g, s, globals, m', gray, o);
    }
  }

  lemma {:induction false} ScanTableFinishes(g: Graph, s: set<Managed>, globals: Managed, m: set<Managed>,
                                             gray: set<Managed>, t: Managed?, top: bool)
    requires g.Valid() && Closed(g, s) && g.TableOrNull(t) && Opt(t) <= s && DoneBut(g, s, globals, m, gray)
    requires top && t != null ==> TopTarget(g, s, globals, t)
    ensures DoneBut(g, s, globals, ScanTable(g, m, t, top), gray)
    decreases g.Containers() - m, 0, 0
  {
    if t != null && t !in m {
      var vs := ValuesOf(g.body[t].slots);
      assert Successors(g.body[t]) <= s;
      MarkOne(g, s, globals, m, gray, t);
      ScanValuesFinishes(g, s, globals, m + {t}, gray + {t}, vs, top);
      Blacken(g, s, globals, ScanTable(g, m, t, top), gray, t);
    }
  }

  lemma {:induction false} ScanVectorFinishes(g: Graph, s: set<Managed>, globals: Managed, m: set<Managed>,
                                              gray: set<Managed>, a: Managed?)
    requires g.Valid() && Closed(g, s) && g.VectorOrNull(a) && Opt(a) <= s && DoneBut(g, s, globals, m, gray)
    ensures DoneBut(g, s, globals, ScanVector(g, m, a), gray)
    decreases g.Containers() - m, 0, 0
  {
    if a != null && a !in m {
      assert Successors(g.body[a]) <= s;
      MarkOne(g, s, globals, m, gray, a);
      if g.body[a].managed {
        ScanValuesFinishes(g, s, globals, m + {a}, gray + {a}, g.body[a].items, true);
      }
      Blacken(g, s, globals, ScanVector(g, m, a), gray, a);
    }
  }

  lemma {:induction false} ScanValuesFinishes(g: Graph, s: set<Managed>, globals: Managed, m: set<Managed>,
                                              gray: set<Managed>, vs: seq<Value>, top: bool)
    requires g.Valid() && Closed(g, s) && Items(g, vs) && AllRefs(vs) <= s && DoneBut(g, s, globals, m, gray)
    ensures DoneBut(g, s, globals, ScanValues(g, m, vs, top), gray)
    ensures if top then TopsIn(g, ScanValues(g, m, vs, top), vs) else AllRefs(vs) <= ScanValues(g, m, vs, top)
    decreases g.Containers() - m, 2, |vs|
  {
    if vs != [] {
      var v := if top then Top(g, vs[0]) else vs[0];
      ClosedChildren(g, s);
      TopInside(g, s, vs[0]);
      var m' := ScanItem(g, m, v);
      ScanItemFinishes(g, s, globals, m, gray, v);
      assert AllRefs(vs) == Refs(vs[0]) + AllRefs(vs[1..]);
      ScanValuesFinishes(g, s, globals, m', gray, vs[1..], top);
      forall i | 0 <= i < |vs| && top ensures Refs(Top(g, vs[i])) <= ScanValues(g, m, vs, top) {
        if i > 0 { assert vs[1..][i - 1] == vs[i]; }
      }
    }
  }

  lemma {:induction false} ScanFrameFinishes(g: Graph, s: set<Managed>, globals: Managed, m: set<Managed>,
                                             gray: set<Managed>, f: Managed?)
    requires g.Valid() && Closed(g, s) && g.FrameOrNull(f) && Opt(f) <= s && DoneBut(g, s, globals, m, gray)
    ensures DoneBut(g, s, globals, ScanFrame(g, m, f), gray)
    decreases g.Containers() - m, 0, if f == null then 0 else g.rank[f] + 1, 1
  {
    if f != null {
      assert Successors(g.body[f]) <= s;
      if f in m {
        ScanFrameFinishes(g, s, globals, m, gray, g.body[f].previous);
      } else {
        var m' := ScanOneFrame(g, m, f);
        ScanOneFrameFinishes(g, s, globals, m, gray, f);
        ScanFrameFinishes(g, s, globals, m', gray + {f}, g.body[f].previous);
        Blacken(g, s, globals, ScanFrame(g, m', g.body[f].previous), gray, f);
      }
    }
  }

  lemma {:induction false} ScanOneFrameFinishes(g: Graph, s: set<Managed>, globals: Managed, m: set<Managed>,
                                                gray: set<Managed>, f: Managed)
    requires g.Valid() && Closed(g, s) && g.FrameOrNull(f) && f in s && f !in m && DoneBut(g, s, globals, m, gray)
    ensures DoneBut(g, s, globals, ScanOneFrame(g, m, f), gray + {f})
    ensures Successors(g.body[f]) <= ScanOneFrame(g, m, f) + Opt(g.body[f].previous)
    decreases g.Containers() - m, 0, g.rank[f] + 1, 0
  {
    var b := g.body[f];
    assert Successors(b) <= s;
    MarkOne(g, s, globals, m, gray, f);
    ScanItemFinishes(g, s, globals, m + {f}, gray + {f}, b.lastResult);
    var m1 := ScanItem(g, m + {f}, b.lastResult);
    ScanItemFinishes(g, s, globals, m1, gray + {f}, b.this_);
    var m2 := ScanItem(g, m1, b.this_);
    ScanTableFinishes(g, s, globals, m2, gray + {f}, b.locals, true);
    ScanFrameFinishes(g, s, globals, ScanTable(g, m2, b.locals, true), gray + {f}, b.ownerFrame);
  }

  // ----- the main theorem -----

  /** t holds the variables of an object part that has a superclass part below it. */
  ghost predicate PartTable(g: Graph, s: set<Managed>, t: Managed) {
    exists o :: o in s && IsPart(g, o) && g.body[o].child.Ref? && VariablesOf(g, g.body[o].child.item) == t
  }

  ghost function VariablesOf(g: Graph, o: Managed): Managed? {
    if o in g.body && g.body[o].Part? then g.body[o].variables else null
  }

  /** A part with a child is what its child knows as "super": how objects are linked when built. */
  ghost predicate SuperLinked(g: Graph, s: set<Managed>) {
    forall o :: o in s && IsPart(g, o) && g.body[o].child.Ref? ==> HoldsSuper(g, g.body[o].child.item, o)
  }

  ghost predicate HoldsSuper(g: Graph, d: Managed, o: Managed) {
    && IsPart(g, d) && VariablesOf(g, d) in g.body && g.body[VariablesOf(g, d)].Table?
    && Slot(SUPER, Ref(o)) in g.body[VariablesOf(g, d)].slots
  }

  /** Locals and globals live in tables of their own. */
  ghost predicate OwnTables(g: Graph, s: set<Managed>, globals: Managed) {
    && !PartTable(g, s, globals)
    && forall o :: o in s && o in g.body && g.body[o].Frame? && g.body[o].locals != null
         ==> !PartTable(g, s, g.body[o].locals)
  }

  /** No assignable reference points into the variables of a part that has a superclass part. */
  ghost predicate NoPartReference(g: Graph, s: set<Managed>) {
    forall o :: o in s && o in g.body && g.body[o].TableReference? && g.body[o].table != null
      ==> !PartTable(g, s, g.body[o].table)
  }

  /** The "super" slot of every derived part is followed as it is, or the part it holds is marked
      anyway. */
  ghost predicate SupersFollowed(g: Graph, s: set<Managed>, globals: Managed, m: set<Managed>) {
    forall o :: o in s && IsPart(g, o) && g.body[o].child.Ref? ==>
      o in m
        || (VariablesOf(g, g.body[o].child.item) != null
            && !TopTarget(g, s, globals, VariablesOf(g, g.body[o].child.item)))
  }

  lemma OwnTablesFollowed(g: Graph, s: set<Managed>, globals: Managed, m: set<Managed>)
    requires SuperLinked(g, s) && OwnTables(g, s, globals) && NoPartReference(g, s)
    ensures SupersFollowed(g, s, globals, m)
  {
    forall o | o in s && IsPart(g, o) && g.body[o].child.Ref?
      ensures VariablesOf(g, g.body[o].child.item) != null
        && !TopTarget(g, s, globals, VariablesOf(g, g.body[o].child.item))
    {
      assert HoldsSuper(g, g.body[o].child.item, o);
      assert PartTable(g, s, VariablesOf(g, g.body[o].child.item));
    }
  }

  /** What was followed from its most derived part is marked itself: the "super" slots lead back. */
  lemma {:induction false} BackFromTop(g: Graph, s: set<Managed>, globals: Managed, m: set<Managed>, v: Value)
    requires g.Valid() && DoneBut(g, s, globals, m, {}) && SuperLinked(g, s) && Closed(g, s)
    requires SupersFollowed(g, s, globals, m)
    requires g.Item(v) && Refs(v) <= s && Refs(Top(g, v)) <= m
    ensures Refs(v) <= m
    decreases if v.Ref? then g.rank[v.item] else 0
  {
    if v.Ref? && IsPart(g, v.item) && g.body[v.item].child.Ref? {
      var c := g.body[v.item].child;
      assert Successors(g.body[v.item]) <= s;
      BackFromTop(g, s, globals, m, c);
      assert HoldsSuper(g, c.item, v.item);
      var t := VariablesOf(g, c.item);
      if t != null && !TopTarget(g, s, globals, t) {
        assert Done(g, s, globals, m, c.item) && t in m;
        assert Done(g, s, globals, m, t);
        var i :| 0 <= i < |g.body[t].slots| && g.body[t].slots[i] == Slot(SUPER, v);
        assert ValuesOf(g.body[t].slots)[i] == v;
      }
    }
  }

  lemma BackFromTops(g: Graph, s: set<Managed>, globals: Managed, m: set<Managed>, vs: seq<Value>)
    requires g.Valid() && DoneBut(g, s, globals, m, {}) && SuperLinked(g, s) && Closed(g, s)
    requires SupersFollowed(g, s, globals, m)
    requires Items(g, vs) && AllRefs(vs) <= s && TopsIn(g, m, vs)
    ensures AllRefs(vs) <= m
  {
    forall i | 0 <= i < |vs| ensures Refs(vs[i]) <= m {
      assert Refs(vs[i]) <= AllRefs(vs);
      BackFromTop(g, s, globals, m, vs[i]);
    }
  }

  lemma DoneIsClosed(g: Graph, s: set<Managed>, globals: Managed, m: set<Managed>)
    requires g.Valid() && DoneBut(g, s, globals, m, {}) && SuperLinked(g, s) && Closed(g, s)
    requires SupersFollowed(g, s, globals, m)
    ensures Closed(g, m)
  {
    forall o | o in m ensures Successors(g.body[o]) <= m {
      assert Done(g, s, globals, m, o) && Successors(g.body[o]) <= s;
      match g.body[o] {
        case Table(slots) =>
          if !(AllRefs(ValuesOf(slots)) <= m) { BackFromTops(g, s, globals, m, ValuesOf(slots)); }
        case Vector(managed, items) =>
          if managed { BackFromTops(g, s, globals, m, items); }
        case _ =>
      }
    }
  }

  lemma ScanRootsFinishes(g: Graph, roots: Roots, s: set<Managed>)
    requires roots.Valid(g) && Closed(g, s) && roots.Objects() <= s
    ensures DoneBut(g, s, roots.globals, ScanRoots(g, roots), {}) && roots.Objects() <= ScanRoots(g, roots)
  {
    var m1 := ScanValues(g, {}, roots.stack, false);
    ScanValuesFinishes(g, s, roots.globals, {}, {}, roots.stack, false);
    var m2 := ScanItem(g, m1, roots.exception);
    ScanItemFinishes(g, s, roots.globals, m1, {}, roots.exception);
    ScanTableFinishes(g, s, roots.globals, m2, {}, roots.globals, true);
    ScanFrameFinishes(g, s, roots.globals, ScanTable(g, m2, roots.globals, true), {}, roots.frame);
  }

  /** Marking is complete when the "super" slots are followed or not needed. */
  lemma MarkedWhenFollowed(g: Graph, roots: Roots)
    requires roots.Valid(g)
    requires var s := Reach(g, roots.Objects());
      SuperLinked(g, s) && SupersFollowed(g, s, roots.globals, ScanRoots(g, roots))
    ensures ScanRoots(g, roots) == Reach(g, roots.Objects())
  {
    var s := Reach(g, roots.Objects());
    ReachIsClosed(g, roots.Objects());
    ScanRootsFinishes(g, roots, s);
    DoneIsClosed(g, s, roots.globals, ScanRoots(g, roots));
    ReachIsLeast(g, roots.Objects(), ScanRoots(g, roots));
    OnlyReachableMarked(g, roots);
  }

  /** Mark exactness: while no reachable reference points into the variables of a part that has a
      superclass part, an object is marked iff it is reachable. */
  lemma MarkedIffReachable(g: Graph, roots: Roots)
    requires roots.Valid(g)
    requires var s := Reach(g, roots.Objects());
      SuperLinked(g, s) && OwnTables(g, s, roots.globals) && NoPartReference(g, s)
    ensures ScanRoots(g, roots) == Reach(g, roots.Objects())
  {
    OwnTablesFollowed(g, Reach(g, roots.Objects()), roots.globals, ScanRoots(g, roots));
    MarkedWhenFollowed(g, roots);
  }
}
